/** Return reconstruction and performance metrics of one risk profile:
    replay the profile's snapshots against the Returns table, one week per
    snapshot, then derive the mean, the compounded total return, the maximum
    drawdown and the curves the dashboard plots. */
module Metrics {
  import opened Common

  /** One entry of the reconstructed series. */
  datatype DailyReturn = DailyReturn(date: Date, ret: real)

  function DateOf(d: DailyReturn): int { d.date }

  /** A snapshot created on day d holds from d through d + HoldingSpan. */
  const HoldingSpan: int := 6
  const CoverageDays: nat := 7

  /** np.isclose(s, 1.0, atol=1e-5) also applies numpy's default rtol=1e-5. */
  const AbsTolerance: real := 0.00001
  const RelTolerance: real := 0.00001

  predicate IsCloseToOne(s: real)
  {
    var gap := if s >= 1.0 then s - 1.0 else 1.0 - s;
    gap <= AbsTolerance + RelTolerance * 1.0
  }

  // ------------------------------------------------------------ weights of one snapshot

  /** Every weight divided by `s`. */
  function Scale(f: Frame, s: real): Frame
    requires s != 0.0
  {
    seq(|f|, i requires 0 <= i < |f| => Holding(f[i].product, f[i].weight / s))
  }

  lemma {:induction false} ScaleSum(f: Frame, s: real)
    requires s != 0.0
    ensures WeightSum(Scale(f, s)) == WeightSum(f) / s
  {
    if f != [] {
      var n := |f| - 1;
      ScaleSum(f[..n], s);
      assert Scale(f, s) == Scale(f[..n], s) + [Holding(f[n].product, f[n].weight / s)];
      WeightSumSnoc(Scale(f[..n], s), Holding(f[n].product, f[n].weight / s));
      assert f == f[..n] + [f[n]];
      WeightSumSnoc(f[..n], f[n]);
      DivideSum(WeightSum(f[..n]), f[n].weight, s);
    }
  }

  lemma DivideSum(a: real, b: real, s: real)
    requires s != 0.0
    ensures a / s + b / s == (a + b) / s
  {
  }

  /** The weights a snapshot is replayed with: as stored when their sum is close
      to 1, rescaled by their sum when it is positive, and None (the snapshot is
      skipped) otherwise. */
  function EffectiveWeights(f: Frame): (r: Option<Frame>)
    ensures r.None? <==> !IsCloseToOne(WeightSum(f)) && WeightSum(f) <= 0.0
    ensures r.Some? && IsCloseToOne(WeightSum(f)) ==> r.value == f
    ensures r.Some? ==> |r.value| == |f| && forall i :: 0 <= i < |f| ==> r.value[i].product == f[i].product
    ensures r.Some? && !IsCloseToOne(WeightSum(f)) ==>
              WeightSum(r.value) == 1.0 && forall i :: 0 <= i < |f| ==> r.value[i].weight == f[i].weight / WeightSum(f)
    ensures r.Some? ==> IsCloseToOne(WeightSum(r.value))
  {
    var s := WeightSum(f);
    if IsCloseToOne(s) then Some(f)
    else if s > 0.0 then
      ScaleSum(f, s);
      Some(Scale(f, s))
    else None
  }

  // ------------------------------------------------------------ one day of one snapshot

  /** The observation takes part in the weighted sum of day `d`: it is dated `d`,
      its value is finite and the snapshot holds its product. */
  predicate Contributes(o: Observation, f: Frame, d: Date)
  {
    o.date == d && o.value.Num? && Lookup(f, o.product).Some?
  }

  /** The contribution of one row: its value times its product's weight. */
  function Weighted(value: real, weight: real): real { value * weight }

  /** value × weight for each contributing row, in table order; duplicates each count. */
  function DayTerms(table: seq<Observation>, f: Frame, d: Date): seq<real>
  {
    if table == [] then []
    else
      var o := table[|table| - 1];
      DayTerms(table[..|table| - 1], f, d)
        + (if Contributes(o, f, d) then [Weighted(o.value.x, Lookup(f, o.product).value)] else [])
  }

  lemma {:induction false} DayTermsConcat(a: seq<Observation>, b: seq<Observation>, f: Frame, d: Date)
    ensures DayTerms(a + b, f, d) == DayTerms(a, f, d) + DayTerms(b, f, d)
  {
    if b == [] {
      assert a + b == a;
    } else {
      var n := |b| - 1;
      var o := b[n];
      var last := if Contributes(o, f, d) then [Weighted(o.value.x, Lookup(f, o.product).value)] else [];
      assert (a + b)[..|a + b| - 1] == a + b[..n];
      assert (a + b)[|a + b| - 1] == o;
      assert DayTerms(a + b, f, d) == DayTerms(a + b[..n], f, d) + last;
      DayTermsConcat(a, b[..n], f, d);
      assert DayTerms(b, f, d) == DayTerms(b[..n], f, d) + last;
    }
  }

  /** The return of day `d`: None when no row contributes (the day is dropped). */
  function DayReturn(table: seq<Observation>, f: Frame, d: Date): Option<real>
  {
    var terms := DayTerms(table, f, d);
    if terms == [] then None else Some(Sum(terms))
  }

  /** A day is dropped exactly when no row contributes to it. */
  lemma {:induction false} DayDroppedIffNoRow(table: seq<Observation>, f: Frame, d: Date)
    ensures DayReturn(table, f, d).None? <==> forall i :: 0 <= i < |table| ==> !Contributes(table[i], f, d)
  {
    if table != [] {
      var n := |table| - 1;
      DayDroppedIffNoRow(table[..n], f, d);
      assert forall i :: 0 <= i < n ==> table[..n][i] == table[i];
    }
  }

  /** A contributing row appended to the table appends its value × weight to the day's terms. */
  lemma ContributingRowAppends(table: seq<Observation>, o: Observation, f: Frame, d: Date)
    requires Contributes(o, f, d)
    ensures DayTerms(table + [o], f, d) == DayTerms(table, f, d) + [Weighted(o.value.x, Lookup(f, o.product).value)]
  {
    assert (table + [o])[..|table|] == table;
  }

  /** A duplicated contributing row adds its value × weight twice. */
  lemma DuplicateRowCountsTwice(table: seq<Observation>, o: Observation, f: Frame, d: Date)
    requires Contributes(o, f, d)
    ensures DayReturn(table + [o, o], f, d)
         == Some(Sum(DayTerms(table, f, d)) + 2.0 * Weighted(o.value.x, Lookup(f, o.product).value))
  {
    var t := Weighted(o.value.x, Lookup(f, o.product).value);
    var before := DayTerms(table, f, d);
    DuplicateTerms(table, o, f, d);
    SumTwice(before, t);
    DayReturnOf(table + [o, o], f, d, before + [t] + [t]);
  }

  lemma DuplicateTerms(table: seq<Observation>, o: Observation, f: Frame, d: Date)
    requires Contributes(o, f, d)
    ensures var t := Weighted(o.value.x, Lookup(f, o.product).value);
      DayTerms(table + [o, o], f, d) == DayTerms(table, f, d) + [t] + [t]
  {
    ContributingRowAppends(table, o, f, d);
    ContributingRowAppends(table + [o], o, f, d);
    assert table + [o] + [o] == table + [o, o];
  }

  lemma SumTwice(s: seq<real>, x: real)
    ensures Sum(s + [x] + [x]) == Sum(s) + 2.0 * x
  {
    assert (s + [x])[..|s|] == s;
    assert (s + [x] + [x])[..|s| + 1] == s + [x];
  }

  lemma DayReturnOf(table: seq<Observation>, f: Frame, d: Date, terms: seq<real>)
    requires DayTerms(table, f, d) == terms && terms != []
    ensures DayReturn(table, f, d) == Some(Sum(terms))
  {
  }

  // ------------------------------------------------------------ the week of one snapshot

  function DayEntry(table: seq<Observation>, f: Frame, d: Date): seq<DailyReturn>
  {
    match DayReturn(table, f, d)
    case Some(r) => [DailyReturn(d, r)]
    case None => []
  }

  /** The kept days among start .. start + k - 1, in date order. */
  function SeriesUpTo(table: seq<Observation>, f: Frame, start: Date, k: nat): seq<DailyReturn>
  {
    if k == 0 then [] else SeriesUpTo(table, f, start, k - 1) + DayEntry(table, f, start + k - 1)
  }

  /** The week of one snapshot: the kept days among its seven calendar days. */
  function SnapshotSeries(table: seq<Observation>, f: Frame, start: Date): seq<DailyReturn>
  {
    SeriesUpTo(table, f, start, CoverageDays)
  }

  lemma {:induction false} SeriesUpToShape(table: seq<Observation>, f: Frame, start: Date, k: nat)
    ensures |SeriesUpTo(table, f, start, k)| <= k
    ensures forall i :: 0 <= i < |SeriesUpTo(table, f, start, k)| ==>
              start <= SeriesUpTo(table, f, start, k)[i].date < start + k
    ensures forall i, j :: 0 <= i < j < |SeriesUpTo(table, f, start, k)| ==>
              SeriesUpTo(table, f, start, k)[i].date < SeriesUpTo(table, f, start, k)[j].date
  {
    if k > 0 {
      SeriesUpToShape(table, f, start, k - 1);
      var prev := SeriesUpTo(table, f, start, k - 1);
      var e := DayEntry(table, f, start + k - 1);
      assert SeriesUpTo(table, f, start, k) == prev + e;
      assert forall i :: 0 <= i < |e| ==> e[i].date == start + k - 1;
    }
  }

  /** A snapshot created on `start` contributes only dates in [start, start + 6],
      strictly increasing, at most seven of them. */
  lemma SnapshotSeriesWithinWeek(table: seq<Observation>, f: Frame, start: Date)
    ensures |SnapshotSeries(table, f, start)| <= CoverageDays
    ensures forall i :: 0 <= i < |SnapshotSeries(table, f, start)| ==>
              start <= SnapshotSeries(table, f, start)[i].date <= start + HoldingSpan
    ensures forall i, j :: 0 <= i < j < |SnapshotSeries(table, f, start)| ==>
              SnapshotSeries(table, f, start)[i].date < SnapshotSeries(table, f, start)[j].date
  {
    SeriesUpToShape(table, f, start, CoverageDays);
  }

  /** What one Portfolios row contributes: nothing when its `produits` is NULL or
      its weights cannot be normalised. */
  function RowSeries(table: seq<Observation>, row: PortfolioRow): seq<DailyReturn>
  {
    match row.produits
    case None => []
    case Some(f) =>
      match EffectiveWeights(f)
      case None => []
      case Some(g) => SnapshotSeries(table, g, row.created)
  }

  /** The per-snapshot series of every row of the profile, concatenated; windows
      that overlap are not deduplicated. */
  function Replay(rows: seq<PortfolioRow>, profile: Profile, table: seq<Observation>): seq<DailyReturn>
  {
    if rows == [] then []
    else
      var last := rows[|rows| - 1];
      Replay(rows[..|rows| - 1], profile, table) + (if last.profile == profile then RowSeries(table, last) else [])
  }

  /** Replay does not deduplicate: its length is the sum of the per-row lengths. */
  lemma {:induction false} ReplayConcat(a: seq<PortfolioRow>, b: seq<PortfolioRow>, profile: Profile, table: seq<Observation>)
    ensures Replay(a + b, profile, table) == Replay(a, profile, table) + Replay(b, profile, table)
  {
    if b == [] {
      assert a + b == a;
    } else {
      var n := |b| - 1;
      var last := if b[n].profile == profile then RowSeries(table, b[n]) else [];
      ReplayConcat(a, b[..n], profile, table);
      DropLastOfConcat(a, b);
      ReplayDropLast(a + b, profile, table);
      ReplayDropLast(b, profile, table);
      AppendAssoc(Replay(a, profile, table), Replay(b[..n], profile, table), last);
    }
  }

  lemma ReplayDropLast(rows: seq<PortfolioRow>, profile: Profile, table: seq<Observation>)
    requires rows != []
    ensures var row := rows[|rows| - 1];
      Replay(rows, profile, table)
        == Replay(rows[..|rows| - 1], profile, table) + (if row.profile == profile then RowSeries(table, row) else [])
  {
  }

  /** A snapshot whose weights sum to at most 0 contributes no day. */
  predicate Unusable(row: PortfolioRow)
  {
    row.produits.None? || WeightSum(row.produits.value) <= 0.0
  }

  /** A ledger whose snapshots of the profile are all unusable yields an empty series. */
  lemma {:induction false} UnusableSnapshotsYieldNothing(rows: seq<PortfolioRow>, profile: Profile, table: seq<Observation>)
    requires forall i :: 0 <= i < |rows| && rows[i].profile == profile ==> Unusable(rows[i])
    ensures Replay(rows, profile, table) == []
  {
    if rows != [] {
      var n := |rows| - 1;
      assert forall i :: 0 <= i < n ==> rows[..n][i] == rows[i];
      UnusableSnapshotsYieldNothing(rows[..n], profile, table);
    }
  }

  // ------------------------------------------------------------ the imperative replay

  /** The Returns rows the per-snapshot query reads: products the snapshot holds,
      dated within the window, with a finite value. */
  function WindowRows(table: seq<Observation>, f: Frame, start: Date): seq<Observation>
  {
    if table == [] then []
    else
      var o := table[|table| - 1];
      WindowRows(table[..|table| - 1], f, start)
        + (if Lookup(f, o.product).Some? && start <= o.date <= start + HoldingSpan && o.value.Num? then [o] else [])
  }

  lemma {:induction false} WindowRowsKeepDays(table: seq<Observation>, f: Frame, start: Date, d: Date)
    requires start <= d <= start + HoldingSpan
    ensures DayTerms(WindowRows(table, f, start), f, d) == DayTerms(table, f, d)
  {
    if table != [] {
      var n := |table| - 1;
      var o := table[n];
      WindowRowsKeepDays(table[..n], f, start, d);
      var keep := Lookup(f, o.product).Some? && start <= o.date <= start + HoldingSpan && o.value.Num?;
      DayTermsConcat(WindowRows(table[..n], f, start), if keep then [o] else [], f, d);
      if keep {
        assert [o][..0] == [];
      }
    }
  }

  lemma SeriesUnfold(table: seq<Observation>, f: Frame, start: Date, k: nat)
    ensures SeriesUpTo(table, f, start, k + 1) == SeriesUpTo(table, f, start, k) + DayEntry(table, f, start + k)
  {
  }

  lemma DayEntryValue(table: seq<Observation>, f: Frame, d: Date)
    ensures var terms := DayTerms(table, f, d);
      DayEntry(table, f, d) == if terms != [] then [DailyReturn(d, Sum(terms))] else []
  {
  }

  /** Only the window's rows matter: replaying the queried rows gives the same week. */
  lemma WindowSeriesAgrees(table: seq<Observation>, f: Frame, start: Date, k: nat)
    requires k <= CoverageDays
    ensures SeriesUpTo(WindowRows(table, f, start), f, start, k) == SeriesUpTo(table, f, start, k)
  {
    forall d | start <= d < start + k
      ensures DayEntry(WindowRows(table, f, start), f, d) == DayEntry(table, f, d)
    {
      WindowDayAgrees(table, f, start, d);
    }
    SeriesAgree(WindowRows(table, f, start), table, f, start, k);
  }

  /** Two tables that agree on every day of the first `k` give the same series. */
  lemma {:induction false} SeriesAgree(a: seq<Observation>, b: seq<Observation>, f: Frame, start: Date, k: nat)
    requires forall d :: start <= d < start + k ==> DayEntry(a, f, d) == DayEntry(b, f, d)
    ensures SeriesUpTo(a, f, start, k) == SeriesUpTo(b, f, start, k)
  {
    if k == 0 {
      assert SeriesUpTo(a, f, start, 0) == [] == SeriesUpTo(b, f, start, 0);
    } else {
      var j := k - 1;
      SeriesAgree(a, b, f, start, j);
      SeriesUnfold(a, f, start, j);
      SeriesUnfold(b, f, start, j);
      AppendCongruence(SeriesUpTo(a, f, start, j), SeriesUpTo(b, f, start, j),
        DayEntry(a, f, start + j), DayEntry(b, f, start + j));
    }
  }

  lemma WindowDayAgrees(table: seq<Observation>, f: Frame, start: Date, d: Date)
    requires start <= d <= start + HoldingSpan
    ensures DayEntry(WindowRows(table, f, start), f, d) == DayEntry(table, f, d)
  {
    WindowRowsKeepDays(table, f, start, d);
  }

  lemma {:induction false} EmptyTableNoSeries(f: Frame, start: Date, k: nat)
    ensures SeriesUpTo([], f, start, k) == []
  {
    if k > 0 {
      EmptyTableNoSeries(f, start, k - 1);
      SeriesUnfold([], f, start, k - 1);
      DayEntryValue([], f, start + (k - 1));
    }
  }

  /** A snapshot none of whose products has a finite value in the window contributes no day. */
  lemma NoRowsNoSeries(table: seq<Observation>, f: Frame, start: Date)
    requires WindowRows(table, f, start) == []
    ensures SnapshotSeries(table, f, start) == []
  {
    WindowSeriesAgrees(table, f, start, CoverageDays);
    EmptyTableNoSeries(f, start, CoverageDays);
  }

  /** The per-snapshot Returns query: the rows of the held products dated
      within the window, with non-finite values dropped. */
  method QueryWindow(table: seq<Observation>, f: Frame, start: Date) returns (rows: seq<Observation>)
    ensures rows == WindowRows(table, f, start)
  {
    rows := [];
    var i := 0;
    while i < |table|
      invariant 0 <= i <= |table|
      invariant rows == WindowRows(table[..i], f, start)
    {
      var o := table[i];
      assert table[..i + 1][..i] == table[..i];
      if Lookup(f, o.product).Some? && start <= o.date <= start + HoldingSpan && o.value.Num? {
        rows := rows + [o];
      }
      i := i + 1;
    }
    assert table[..|table|] == table;
  }

  /** The weighted sum of one day's rows; `found` is false when no row is
      merged with a weight, and the day is then left empty. */
  method SumDay(rows: seq<Observation>, f: Frame, date: Date) returns (found: bool, total: real)
    ensures found <==> DayTerms(rows, f, date) != []
    ensures total == Sum(DayTerms(rows, f, date))
  {
    found := false;
    total := 0.0;
    var j := 0;
    while j < |rows|
      invariant 0 <= j <= |rows|
      invariant found == (DayTerms(rows[..j], f, date) != [])
      invariant total == Sum(DayTerms(rows[..j], f, date))
    {
      var o := rows[j];
      assert rows[..j + 1][..j] == rows[..j];
      ghost var step := if Contributes(o, f, date) then [Weighted(o.value.x, Lookup(f, o.product).value)] else [];
      assert DayTerms(rows[..j + 1], f, date) == DayTerms(rows[..j], f, date) + step;
      if o.date == date && o.value.Num? && Lookup(f, o.product).Some? {
        total := total + Weighted(o.value.x, Lookup(f, o.product).value);
        found := true;
        SumConcat(DayTerms(rows[..j], f, date), step);
        assert step[..0] == [];
        assert |DayTerms(rows[..j + 1], f, date)| > 0;
      } else {
        assert step == [];
        assert DayTerms(rows[..j + 1], f, date) == DayTerms(rows[..j], f, date);
      }
      j := j + 1;
    }
    assert rows[..|rows|] == rows;
  }

  /** Fills day start + k of the week: appended when some row merged with a weight. */
  method AddDay(rows: seq<Observation>, f: Frame, start: Date, k: nat, days: seq<DailyReturn>) returns (next: seq<DailyReturn>)
    requires days == SeriesUpTo(rows, f, start, k)
    ensures next == SeriesUpTo(rows, f, start, k + 1)
  {
    var found, total := SumDay(rows, f, start + k);
    SeriesUnfold(rows, f, start, k);
    DayEntryValue(rows, f, start + k);
    next := days;
    if found {
      next := days + [DailyReturn(start + k, total)];
    }
  }

  /** One snapshot's week, computed as the engine does it: query the window's
      rows, then for each calendar day sum value × weight over that day's rows. */
  method SnapshotReturns(table: seq<Observation>, f: Frame, start: Date) returns (days: seq<DailyReturn>)
    ensures days == SnapshotSeries(table, f, start)
  {
    var returnsData := QueryWindow(table, f, start);
    if returnsData == [] {
      NoRowsNoSeries(table, f, start);
      return [];
    }
    days := [];
    var k: nat := 0;
    while k < CoverageDays
      invariant k <= CoverageDays
      invariant days == SeriesUpTo(returnsData, f, start, k)
    {
      days := AddDay(returnsData, f, start, k, days);
      k := k + 1;
    }
    WindowSeriesAgrees(table, f, start, CoverageDays);
  }

  /** The metrics object of one risk profile: `dailyReturns` is the reconstructed
      series, sorted by date. */
  class PortfolioMetrics {
    const portfolioType: Profile
    var dailyReturns: seq<DailyReturn>

    constructor (portfolioType: Profile, portfolios: seq<PortfolioRow>, table: seq<Observation>)
      ensures this.portfolioType == portfolioType
      ensures SortedBy(dailyReturns, DateOf)
      ensures multiset(dailyReturns) == multiset(Replay(portfolios, portfolioType, table))
    {
      this.portfolioType := portfolioType;
      new;
      LoadReturns(portfolios, table);
    }

    /** Replays the profile's snapshots and stores every kept day, sorted by date.
        The sort is not stable, so only the order between days of the same date
        is left open. */
    method LoadReturns(portfolios: seq<PortfolioRow>, table: seq<Observation>)
      modifies this
      ensures SortedBy(dailyReturns, DateOf)
      ensures multiset(dailyReturns) == multiset(Replay(portfolios, portfolioType, table))
    {
      var allReturns: seq<DailyReturn> := [];
      var k := 0;
      while k < |portfolios|
        invariant 0 <= k <= |portfolios|
        invariant allReturns == Replay(portfolios[..k], portfolioType, table)
      {
        var row := portfolios[k];
        var days: seq<DailyReturn> := [];
        if row.profile == portfolioType {
          days := RowReturns(table, row);
        }
        ReplayPrefixStep(portfolios, k, portfolioType, table);
        allReturns := allReturns + days;
        k := k + 1;
      }
      assert portfolios[..|portfolios|] == portfolios;
      dailyReturns := SortBy(allReturns, DateOf);
    }

    /** mean_return: the mean of the stored series, undefined when it is empty. */
    function Mean(): (m: Option<real>)
      reads this
      ensures m.None? <==> dailyReturns == []
      ensures m.Some? ==> m.value * (|dailyReturns| as real) == Sum(Rets(dailyReturns))
    {
      MeanReturn(Rets(dailyReturns))
    }

    /** total_return: the compounded return of the stored series, 0 when it is empty. */
    function Total(): (t: real)
      reads this
      ensures dailyReturns == [] ==> t == 0.0
    {
      TotalReturn(Rets(dailyReturns))
    }

    /** max_drawdown: the worst loss of the stored series, NaN when it is empty. */
    function Drawdown(): (d: Value)
      reads this
      ensures dailyReturns == [] ==> d == NaN
    {
      MaxDrawdown(Rets(dailyReturns))
    }
  }

  /** One Portfolios row replayed as the engine does it: rows whose `produits`
      is NULL are not selected, weights off 1 are divided by their sum in place,
      and a row whose sum is at most 0 is skipped. */
  method RowReturns(table: seq<Observation>, row: PortfolioRow) returns (days: seq<DailyReturn>)
    ensures days == RowSeries(table, row)
  {
    days := [];
    if row.produits.Some? {
      var w := row.produits.value;
      var weightsSum := WeightSum(w);
      if !IsCloseToOne(weightsSum) {
        if weightsSum > 0.0 {
          w := Scale(w, weightsSum);
        } else {
          return;
        }
      }
      days := SnapshotReturns(table, w, row.created);
    }
  }

  lemma ReplayPrefixStep(rows: seq<PortfolioRow>, k: nat, profile: Profile, table: seq<Observation>)
    requires k < |rows|
    ensures Replay(rows[..k + 1], profile, table)
         == Replay(rows[..k], profile, table) + (if rows[k].profile == profile then RowSeries(table, rows[k]) else [])
  {
    assert rows[..k + 1][..k] == rows[..k];
  }

  // ------------------------------------------------------------ scalar metrics

  /** The `return` column of the series. */
  function Rets(s: seq<DailyReturn>): seq<real>
  {
    seq(|s|, i requires 0 <= i < |s| => s[i].ret)
  }

  /** Arithmetic mean; pandas gives NaN (here None) on an empty series. */
  function MeanReturn(r: seq<real>): (m: Option<real>)
    ensures m.None? <==> r == []
    ensures m.Some? ==> m.value * (|r| as real) == Sum(r)
  {
    if r == [] then None else Some(Sum(r) / |r| as real)
  }

  lemma {:induction false} SumBounds(r: seq<real>, lo: real, hi: real)
    requires forall i :: 0 <= i < |r| ==> lo <= r[i] <= hi
    ensures (|r| as real) * lo <= Sum(r) <= (|r| as real) * hi
  {
    if r != [] {
      SumBounds(r[..|r| - 1], lo, hi);
    }
  }

  /** The mean lies between the smallest and the largest return. */
  lemma MeanWithinBounds(r: seq<real>, lo: real, hi: real)
    requires r != []
    requires forall i :: 0 <= i < |r| ==> lo <= r[i] <= hi
    ensures lo <= MeanReturn(r).value <= hi
  {
    SumBounds(r, lo, hi);
    var n := |r| as real;
    assert MeanReturn(r).value * n == Sum(r);
  }

  /** Π (1 + rᵢ). */
  function Growth(r: seq<real>): real
  {
    if r == [] then 1.0 else Growth(r[..|r| - 1]) * (1.0 + r[|r| - 1])
  }

  /** Compounded total return Π (1 + rᵢ) − 1; 0 on an empty series. */
  function TotalReturn(r: seq<real>): (t: real)
    ensures r == [] ==> t == 0.0
  {
    Growth(r) - 1.0
  }

  lemma {:induction false} GrowthConcat(a: seq<real>, b: seq<real>)
    ensures Growth(a + b) == Growth(a) * Growth(b)
  {
    if b == [] {
      assert a + b == a;
    } else {
      var n := |b| - 1;
      assert (a + b)[..|a + b| - 1] == a + b[..n];
      GrowthConcat(a, b[..n]);
    }
  }

  /** Returns compound: the total over two periods combines the totals of each. */
  lemma TotalReturnCompounds(a: seq<real>, b: seq<real>)
    ensures 1.0 + TotalReturn(a + b) == (1.0 + TotalReturn(a)) * (1.0 + TotalReturn(b))
  {
    GrowthConcat(a, b);
  }

  lemma MulPositive(a: real, b: real)
    requires a > 0.0 && b > 0.0
    ensures a * b > 0.0
  {
  }

  lemma {:induction false} GrowthPositive(r: seq<real>)
    requires forall i :: 0 <= i < |r| ==> r[i] > -1.0
    ensures Growth(r) > 0.0
  {
    if r != [] {
      var n := |r| - 1;
      assert forall i :: 0 <= i < n ==> r[..n][i] == r[i];
      GrowthPositive(r[..n]);
      MulPositive(Growth(r[..n]), 1.0 + r[n]);
    }
  }

  lemma {:induction false} GrowthAtLeastOne(r: seq<real>)
    requires forall i :: 0 <= i < |r| ==> r[i] >= 0.0
    ensures Growth(r) >= 1.0
  {
    if r != [] {
      GrowthAtLeastOne(r[..|r| - 1]);
    }
  }

  /** When no period loses everything, the total loss is less than 100%. */
  lemma TotalReturnAboveMinusOne(r: seq<real>)
    requires forall i :: 0 <= i < |r| ==> r[i] > -1.0
    ensures TotalReturn(r) > -1.0
  {
    GrowthPositive(r);
  }

  /** cumprod(1 + r). */
  function Cumulative(r: seq<real>): (c: seq<real>)
    ensures |c| == |r|
  {
    seq(|r|, i requires 0 <= i < |r| => Growth(r[..i + 1]))
  }

  /** cummax: each entry is the largest value seen so far. */
  function RunningMax(c: seq<real>): (m: seq<real>)
    ensures |m| == |c|
    ensures forall i, j :: 0 <= j <= i < |c| ==> c[j] <= m[i]
    ensures |c| > 0 ==> m[0] == c[0]
  {
    if c == [] then []
    else
      var n := |c| - 1;
      var m := RunningMax(c[..n]);
      var top := if n == 0 || m[n - 1] < c[n] then c[n] else m[n - 1];
      assert forall j :: 0 <= j < n ==> c[..n][j] == c[j];
      m + [top]
  }

  /** Each running maximum is one of the values seen so far. */
  lemma {:induction false} RunningMaxAttained(c: seq<real>)
    ensures forall i :: 0 <= i < |c| ==> exists j :: 0 <= j <= i && RunningMax(c)[i] == c[j]
  {
    if c != [] {
      var n := |c| - 1;
      RunningMaxAttained(c[..n]);
      assert forall j :: 0 <= j < n ==> c[..n][j] == c[j];
      assert forall i :: 0 <= i < n ==> RunningMax(c)[i] == RunningMax(c[..n])[i];
    }
  }

  /** IEEE division of two finite reals. */
  function Divide(a: real, b: real): (v: Value)
    ensures b != 0.0 ==> v == Num(a / b)
    ensures b == 0.0 ==> !v.Num?
  {
    if b != 0.0 then Num(a / b)
    else if a == 0.0 then NaN
    else if a > 0.0 then PosInf
    else NegInf
  }

  /** (cumulative − running_max) / running_max, entry by entry. */
  function DrawdownTerms(r: seq<real>): (dd: seq<Value>)
    ensures |dd| == |r|
  {
    var c := Cumulative(r);
    RelativeGaps(c, RunningMax(c))
  }

  /** (c − m) / m entry by entry. */
  function RelativeGaps(c: seq<real>, m: seq<real>): seq<Value>
    requires |c| == |m|
  {
    seq(|c|, i requires 0 <= i < |c| => Divide(c[i] - m[i], m[i]))
  }

  /** The smaller of two cells, NaN being skipped as pandas' min does. */
  function MinSkipNaN(a: Value, b: Value): Value
  {
    if a.NaN? then b
    else if b.NaN? then a
    else if a.NegInf? || b.NegInf? then NegInf
    else if a.PosInf? then b
    else if b.PosInf? then a
    else if a.x <= b.x then a
    else b
  }

  /** Series.min(): NaN when the series is empty or all NaN. */
  function MinOf(vs: seq<Value>): Value
  {
    if vs == [] then NaN else MinSkipNaN(MinOf(vs[..|vs| - 1]), vs[|vs| - 1])
  }

  lemma {:induction false} MinOfFinite(vs: seq<Value>)
    requires vs != []
    requires forall i :: 0 <= i < |vs| ==> vs[i].Num?
    ensures MinOf(vs).Num?
    ensures forall i :: 0 <= i < |vs| ==> MinOf(vs).x <= vs[i].x
    ensures exists i :: 0 <= i < |vs| && MinOf(vs) == vs[i]
  {
    var n := |vs| - 1;
    if n > 0 {
      assert forall i :: 0 <= i < n ==> vs[..n][i] == vs[i];
      MinOfFinite(vs[..n]);
    }
  }

  /** The worst peak-to-trough loss of the compounded series; NaN on an empty series. */
  function MaxDrawdown(r: seq<real>): (d: Value)
    ensures r == [] ==> d == NaN
  {
    MinOf(DrawdownTerms(r))
  }

  lemma CumulativePositive(r: seq<real>)
    requires forall i :: 0 <= i < |r| ==> r[i] > -1.0
    ensures forall i :: 0 <= i < |r| ==> Cumulative(r)[i] > 0.0
  {
    forall i | 0 <= i < |r|
      ensures Cumulative(r)[i] > 0.0
    {
      assert forall j :: 0 <= j < i + 1 ==> r[..i + 1][j] == r[j];
      GrowthPositive(r[..i + 1]);
    }
  }

  lemma DrawdownRatioBounds(c: real, m: real)
    requires 0.0 < c <= m
    ensures -1.0 < (c - m) / m <= 0.0
  {
    var a := (c - m) / m;
    assert a * m == c - m;
    assert (a + 1.0) * m == c;
  }

  lemma ZeroProduct(x: real, m: real)
    requires m != 0.0 && x * m == 0.0
    ensures x == 0.0
  {
  }

  lemma RatioMinusOne(c: real, m: real)
    requires m != 0.0
    ensures c / m - 1.0 == (c - m) / m
  {
    var a := (c - m) / m;
    var q := c / m;
    assert a * m == c - m;
    assert q * m == c;
    assert (a - q + 1.0) * m == a * m - q * m + m;
    ZeroProduct(a - q + 1.0, m);
  }

  /** Where every value is positive and at most its running maximum, every
      relative gap is a finite loss in (−1, 0]. */
  lemma RelativeGapsBounds(c: seq<real>, m: seq<real>)
    requires |c| == |m|
    requires forall i :: 0 <= i < |c| ==> 0.0 < c[i] <= m[i]
    ensures forall i :: 0 <= i < |c| ==> RelativeGaps(c, m)[i].Num? && -1.0 < RelativeGaps(c, m)[i].x <= 0.0
  {
    forall i | 0 <= i < |c|
      ensures RelativeGaps(c, m)[i].Num? && -1.0 < RelativeGaps(c, m)[i].x <= 0.0
    {
      DrawdownRatioBounds(c[i], m[i]);
    }
  }

  /** With no return at or below −100%, the maximum drawdown is a finite number in (−1, 0]. */
  lemma MaxDrawdownNonPositive(r: seq<real>)
    requires r != []
    requires forall i :: 0 <= i < |r| ==> r[i] > -1.0
    ensures MaxDrawdown(r).Num?
    ensures -1.0 < MaxDrawdown(r).x <= 0.0
  {
    var c := Cumulative(r);
    var m := RunningMax(c);
    var dd := DrawdownTerms(r);
    CumulativePositive(r);
    RelativeGapsBounds(c, m);
    assert m[0] == c[0];
    MinOfFinite(dd);
  }

  lemma MulAtLeast(a: real, b: real)
    requires a >= 0.0 && b >= 1.0
    ensures a * b >= a
  {
    assert a * b - a == a * (b - 1.0);
  }

  /** Each step of the cumulative curve multiplies by 1 + rₖ, so it never falls
      when no return is negative. */
  lemma CumulativeSteps(r: seq<real>)
    requires forall i :: 0 <= i < |r| ==> r[i] >= 0.0
    ensures forall k :: 0 < k < |r| ==> Cumulative(r)[k - 1] <= Cumulative(r)[k]
  {
    var c := Cumulative(r);
    forall k | 0 < k < |r|
      ensures c[k - 1] <= c[k]
    {
      assert r[..k + 1][..k] == r[..k];
      assert forall j :: 0 <= j < k ==> r[..k][j] == r[j];
      GrowthAtLeastOne(r[..k]);
      MulAtLeast(Growth(r[..k]), 1.0 + r[k]);
    }
  }

  lemma {:induction false} StepsToMonotone(c: seq<real>)
    requires forall k :: 0 < k < |c| ==> c[k - 1] <= c[k]
    ensures forall i, j :: 0 <= j <= i < |c| ==> c[j] <= c[i]
  {
    if |c| > 1 {
      var n := |c| - 1;
      var p := c[..n];
      assert forall j :: 0 <= j < n ==> p[j] == c[j];
      StepsToMonotone(p);
      forall i, j | 0 <= j <= i < |c|
        ensures c[j] <= c[i]
      {
        if i < n {
          assert p[j] <= p[i];
        } else if j < n {
          assert p[j] <= p[n - 1];
        }
      }
    }
  }

  /** The running maximum of a non-decreasing sequence is the sequence itself. */
  lemma RunningMaxOfMonotone(c: seq<real>)
    requires forall i, j :: 0 <= j <= i < |c| ==> c[j] <= c[i]
    ensures RunningMax(c) == c
  {
    var m := RunningMax(c);
    RunningMaxAttained(c);
    forall i | 0 <= i < |c|
      ensures m[i] == c[i]
    {
      var j :| 0 <= j <= i && m[i] == c[j];
    }
  }

  lemma ZeroGap(x: real)
    requires x != 0.0
    ensures Divide(x - x, x) == Num(0.0)
  {
  }

  lemma GapsToSelfAreZero(c: seq<real>)
    requires forall i :: 0 <= i < |c| ==> c[i] > 0.0
    ensures forall i :: 0 <= i < |c| ==> RelativeGaps(c, c)[i] == Num(0.0)
  {
    forall i | 0 <= i < |c|
      ensures RelativeGaps(c, c)[i] == Num(0.0)
    {
      ZeroGap(c[i]);
    }
  }

  lemma MinOfZeros(vs: seq<Value>)
    requires vs != []
    requires forall i :: 0 <= i < |vs| ==> vs[i] == Num(0.0)
    ensures MinOf(vs) == Num(0.0)
  {
    MinOfFinite(vs);
  }

  /** A series without a losing day never draws down. */
  lemma MaxDrawdownZeroWithoutLosses(r: seq<real>)
    requires r != []
    requires forall i :: 0 <= i < |r| ==> r[i] >= 0.0
    ensures MaxDrawdown(r) == Num(0.0)
  {
    var c := Cumulative(r);
    CumulativePositive(r);
    CumulativeSteps(r);
    StepsToMonotone(c);
    RunningMaxOfMonotone(c);
    assert DrawdownTerms(r) == RelativeGaps(c, c);
    GapsToSelfAreZero(c);
    MinOfZeros(RelativeGaps(c, c));
  }

  // ------------------------------------------------------------ plotted curves

  predicate InPlotRange(d: DailyReturn, start: Option<Date>, end: Option<Date>)
  {
    (start.None? || d.date >= start.value) && (end.None? || d.date <= end.value)
  }

  /** The series' rows within the bounds, in their order. */
  function FilterRange(s: seq<DailyReturn>, start: Option<Date>, end: Option<Date>): seq<DailyReturn>
  {
    if s == [] then []
    else
      var n := |s| - 1;
      FilterRange(s[..n], start, end) + (if InPlotRange(s[n], start, end) then [s[n]] else [])
  }

  /** The filter keeps exactly the rows within the bounds. */
  lemma {:induction false} FilterRangeExact(s: seq<DailyReturn>, start: Option<Date>, end: Option<Date>)
    ensures forall x :: x in FilterRange(s, start, end) <==> x in s && InPlotRange(x, start, end)
  {
    if s != [] {
      var n := |s| - 1;
      FilterRangeExact(s[..n], start, end);
      assert s == s[..n] + [s[n]];
    }
  }

  /** The rows a plot shows: those dated within the optional bounds, sorted by date. */
  function PlotRows(s: seq<DailyReturn>, start: Option<Date>, end: Option<Date>): (w: seq<DailyReturn>)
    ensures SortedBy(w, DateOf)
    ensures multiset(w) == multiset(FilterRange(s, start, end))
  {
    SortBy(FilterRange(s, start, end), DateOf)
  }

  /** A plot shows exactly the series' days within the bounds. */
  lemma PlotRowsWithinBounds(s: seq<DailyReturn>, start: Option<Date>, end: Option<Date>)
    ensures forall x :: x in PlotRows(s, start, end) <==> x in s && InPlotRange(x, start, end)
  {
    var f := FilterRange(s, start, end);
    var w := PlotRows(s, start, end);
    FilterRangeExact(s, start, end);
    forall x
      ensures x in w <==> x in f
    {
      assert x in w <==> x in multiset(w);
      assert x in f <==> x in multiset(f);
    }
  }

  /** The "return" plot: cumprod(1 + r) − 1. */
  function CumulativeReturnCurve(r: seq<real>): (curve: seq<real>)
    ensures |curve| == |r|
  {
    var c := Cumulative(r);
    seq(|r|, i requires 0 <= i < |r| => c[i] - 1.0)
  }

  /** The cumulative curve ends at the total return. */
  lemma CurveEndsAtTotalReturn(r: seq<real>)
    requires r != []
    ensures CumulativeReturnCurve(r)[|r| - 1] == TotalReturn(r)
  {
    assert r[..|r|] == r;
  }

  /** The "drawdown" plot: cumulative / running_max − 1. */
  function DrawdownCurve(r: seq<real>): (curve: seq<Value>)
    ensures |curve| == |r|
  {
    var c := Cumulative(r);
    RatiosMinusOne(c, RunningMax(c))
  }

  /** c / m − 1 entry by entry. */
  function RatiosMinusOne(c: seq<real>, m: seq<real>): seq<Value>
    requires |c| == |m|
  {
    seq(|c|, i requires 0 <= i < |c| => MinusOne(Divide(c[i], m[i])))
  }

  /** x − 1 on a cell; NaN and the infinities are unchanged. */
  function MinusOne(v: Value): Value
  {
    match v
    case Num(q) => Num(q - 1.0)
    case other => other
  }

  lemma CurveEntry(c: real, m: real)
    requires 0.0 < c <= m
    ensures MinusOne(Divide(c, m)) == Divide(c - m, m)
  {
    RatioMinusOne(c, m);
  }

  lemma RatiosAgree(c: seq<real>, m: seq<real>)
    requires |c| == |m|
    requires forall i :: 0 <= i < |c| ==> 0.0 < c[i] <= m[i]
    ensures RatiosMinusOne(c, m) == RelativeGaps(c, m)
  {
    forall i | 0 <= i < |c|
      ensures RatiosMinusOne(c, m)[i] == RelativeGaps(c, m)[i]
    {
      CurveEntry(c[i], m[i]);
    }
  }

  /** When no return is at or below −100%, the plotted drawdown curve and the
      terms whose minimum is the maximum drawdown agree entry by entry. */
  lemma DrawdownCurveAgrees(r: seq<real>)
    requires forall i :: 0 <= i < |r| ==> r[i] > -1.0
    ensures DrawdownCurve(r) == DrawdownTerms(r)
  {
    var c := Cumulative(r);
    CumulativePositive(r);
    RatiosAgree(c, RunningMax(c));
  }
}
