/** The three allocation rules of the engine: weights whose annualised
    volatility comes closest to a target, over bonds-heavy portfolios (`low_risk`), sign-preserving weights from a
    pre-trained predictor (`linear_strategy`) and mean-maximising weights over
    equities (`high_yield`). The data selection around them is modelled
    exactly; the numerical optimiser and the predictor are oracles passed in
    as parameters. */
module Strategies {
  import opened Common

  /** One row of the Products table. */
  datatype Product = Product(id: ProductId, category: string)

  /** The return series selected for one product. */
  datatype Series = Series(product: ProductId, values: seq<Value>)

  function IdsOf(sel: seq<Series>): seq<ProductId>
  {
    seq(|sel|, i requires 0 <= i < |sel| => sel[i].product)
  }

  function ValuesOfAll(sel: seq<Series>): seq<seq<Value>>
  {
    seq(|sel|, i requires 0 <= i < |sel| => sel[i].values)
  }

  // ---------------------------------------------------------------- the optimiser as an oracle

  /** What the objective of a run is computed from. */
  datatype Objective =
    | TrackVolatility(series: seq<seq<Value>>, target: real, periodsPerYear: nat)
    | MaximiseMean(mu: seq<Value>)

  /** One constrained run: start point, box bounds on every weight, an
      optional lower bound on a masked sum, and the iteration options. */
  datatype Program = Program(
    objective: Objective,
    x0: seq<real>,
    lower: real,
    upper: real,
    mask: seq<real>,
    maskMin: Option<real>,
    maxIter: Option<nat>,
    ftol: Option<real>)

  datatype Solution = Solution(success: bool, x: seq<real>)

  type Solver = Program -> Solution

  function Dot(a: seq<real>, b: seq<real>): real
    requires |a| == |b|
  {
    if a == [] then 0.0 else Dot(a[..|a| - 1], b[..|b| - 1]) + a[|a| - 1] * b[|b| - 1]
  }

  /** The constraints every run states: weights sum to one, lie in the box,
      and the masked sum reaches its lower bound when there is one. */
  predicate Feasible(p: Program, x: seq<real>)
  {
    && |x| == |p.x0|
    && Sum(x) == 1.0
    && (forall i :: 0 <= i < |x| ==> p.lower <= x[i] <= p.upper)
    && (p.maskMin.Some? ==> |p.mask| == |x| && Dot(p.mask, x) >= p.maskMin.value)
  }

  /** The optimiser returns a point of the start point's shape. */
  ghost predicate SolverShape(solve: Solver)
  {
    forall p :: |solve(p).x| == |p.x0|
  }

  /** The optimiser reports success only for points meeting the constraints. */
  ghost predicate Honours(solve: Solver)
  {
    forall p :: solve(p).success ==> Feasible(p, solve(p).x)
  }

  /** The equal split every run starts from. */
  function EqualSplit(n: nat): (x0: seq<real>)
    ensures |x0| == n && forall i :: 0 <= i < n ==> x0[i] * (n as real) == 1.0
  {
    seq(n, i requires 0 <= i < n => 1.0 / (n as real))
  }

  /** The start point meets the sum constraint, and every weight lies in (0, 1]. */
  lemma EqualSplitSumsToOne(n: nat)
    requires n > 0
    ensures Sum(EqualSplit(n)) == 1.0
    ensures forall i :: 0 <= i < n ==> 0.0 < EqualSplit(n)[i] <= 1.0
  {
    EqualSplitPrefixSum(n, n);
    assert EqualSplit(n)[..n] == EqualSplit(n);
    SelfQuotient(n as real);
    QuotientKeepsSign(1.0, n as real);
    forall i | 0 <= i < n
      ensures 0.0 < EqualSplit(n)[i] <= 1.0
    {
      var x := EqualSplit(n)[i];
      assert x == 1.0 / (n as real);
      assert x * (n as real) == 1.0;
      MulAtLeastOne(x, n as real);
    }
  }

  lemma MulAtLeastOne(x: real, t: real)
    requires x > 0.0 && t >= 1.0
    ensures x <= x * t
  {
    assert x * t - x == x * (t - 1.0);
  }

  lemma {:induction false} EqualSplitPrefixSum(n: nat, k: nat)
    requires 0 < k <= n
    ensures Sum(EqualSplit(n)[..k]) == (k as real) / (n as real)
  {
    var x := EqualSplit(n);
    assert x[..k][..k - 1] == x[..k - 1];
    if k == 1 {
      assert x[..k - 1] == [];
    } else {
      EqualSplitPrefixSum(n, k - 1);
      AddQuotients((k - 1) as real, 1.0, n as real);
    }
  }

  // ---------------------------------------------------------------- per-product windows

  /** The rows of a group older than its `k` most recent ones. */
  function Older(rows: seq<Observation>, k: nat): seq<Observation>
    requires k <= |rows|
  {
    var c := Chronological(rows);
    c[..|c| - k]
  }

  /** The `k` most recent rows of a group, in chronological order: a sort by
      date descending, the first `k`, and a sort back to ascending. */
  function Trailing(rows: seq<Observation>, k: nat): (s: seq<Observation>)
    requires k <= |rows|
    ensures |s| == k
  {
    var c := Chronological(rows);
    c[|c| - k..]
  }

  lemma TrailingIsMostRecent(rows: seq<Observation>, k: nat)
    requires k <= |rows|
    ensures SortedBy(Trailing(rows, k), ObsDate)
    ensures multiset(Older(rows, k)) + multiset(Trailing(rows, k)) == multiset(rows)
    ensures forall i, j :: 0 <= i < |Older(rows, k)| && 0 <= j < k ==> Older(rows, k)[i].date <= Trailing(rows, k)[j].date
  {
    var c := Chronological(rows);
    var m := |c| - k;
    assert c == c[..m] + c[m..];
    forall i, j | 0 <= i < j < k
      ensures ObsDate(c[m..][i]) <= ObsDate(c[m..][j])
    {
      assert c[m..][i] == c[m + i] && c[m..][j] == c[m + j];
    }
    forall i, j | 0 <= i < m && 0 <= j < k
      ensures c[..m][i].date <= c[m..][j].date
    {
      assert c[..m][i] == c[i] && c[m..][j] == c[m + j];
      assert ObsDate(c[i]) <= ObsDate(c[m + j]);
    }
  }

  /** A group's rows dated strictly before `target`, in their order. */
  function Before(rows: seq<Observation>, target: Date): seq<Observation>
  {
    if rows == [] then []
    else Before(rows[..|rows| - 1], target) + (if rows[|rows| - 1].date < target then [rows[|rows| - 1]] else [])
  }

  lemma {:induction false} BeforeExact(rows: seq<Observation>, target: Date, o: Observation)
    ensures o in Before(rows, target) <==> o in rows && o.date < target
  {
    if rows != [] {
      var n := |rows| - 1;
      BeforeExact(rows[..n], target, o);
      assert rows == rows[..n] + [rows[n]];
    }
  }

  /** A group's rows dated on or after `from`, in their order. */
  function Since(rows: seq<Observation>, from: Date): seq<Observation>
  {
    if rows == [] then []
    else Since(rows[..|rows| - 1], from) + (if rows[|rows| - 1].date >= from then [rows[|rows| - 1]] else [])
  }

  lemma {:induction false} SinceExact(rows: seq<Observation>, from: Date, o: Observation)
    ensures o in Since(rows, from) <==> o in rows && o.date >= from
  {
    if rows != [] {
      var n := |rows| - 1;
      SinceExact(rows[..n], from, o);
      assert rows == rows[..n] + [rows[n]];
    }
  }

  /** The latest date of a non-empty group. */
  function LatestDate(rows: seq<Observation>): Date
    requires rows != []
  {
    if |rows| == 1 then rows[0].date
    else
      var m := LatestDate(rows[..|rows| - 1]);
      if rows[|rows| - 1].date > m then rows[|rows| - 1].date else m
  }

  lemma {:induction false} LatestDateBound(rows: seq<Observation>, o: Observation)
    requires o in rows
    ensures o.date <= LatestDate(rows)
  {
    if |rows| > 1 {
      var n := |rows| - 1;
      assert rows == rows[..n] + [rows[n]];
      if o in rows[..n] {
        LatestDateBound(rows[..n], o);
      }
    }
  }

  lemma {:induction false} LatestDateAttained(rows: seq<Observation>)
    requires rows != []
    ensures exists i :: 0 <= i < |rows| && rows[i].date == LatestDate(rows)
  {
    if |rows| > 1 {
      var n := |rows| - 1;
      LatestDateAttained(rows[..n]);
      var i :| 0 <= i < n && rows[..n][i].date == LatestDate(rows[..n]);
      assert rows[i] == rows[..n][i];
    } else {
      assert rows[0].date == LatestDate(rows);
    }
  }

  // ---------------------------------------------------------------- collecting per-product results

  /** The present entries of a sequence of optional results, in order: a loop
      that appends a result for each group it does not skip. */
  function Somes<E>(s: seq<Option<E>>): seq<E>
  {
    if s == [] then [] else Somes(s[..|s| - 1]) + (if s[|s| - 1].Some? then [s[|s| - 1].value] else [])
  }

  lemma SomesStep<E>(s: seq<Option<E>>, i: nat)
    requires i < |s|
    ensures Somes(s[..i + 1]) == Somes(s[..i]) + (if s[i].Some? then [s[i].value] else [])
  {
    assert s[..i + 1][..i] == s[..i];
  }

  lemma {:induction false} SomesExact<E>(s: seq<Option<E>>)
    ensures forall e :: e in Somes(s) <==> Some(e) in s
  {
    if s != [] {
      var n := |s| - 1;
      SomesExact(s[..n]);
      assert s == s[..n] + [s[n]];
    }
  }

  lemma SomesEmpty<E>(s: seq<Option<E>>)
    ensures Somes(s) == [] <==> forall i :: 0 <= i < |s| ==> s[i].None?
  {
    SomesExact(s);
    if Somes(s) != [] {
      assert Somes(s)[0] in Somes(s);
    }
  }

  // ---------------------------------------------------------------- low_risk

  /** Products need a full year of observations. */
  const TradingYear: nat := 252

  /** Minimum share of the portfolio held in bonds. */
  const MinBondShare: real := 0.6

  /** The entry of one product group: its `k` most recent values, if it has that many. */
  function TrailingEntry(table: seq<Observation>, p: ProductId, k: nat): Option<Series>
  {
    var rows := RowsOf(table, p);
    if |rows| >= k then Some(Series(p, ValuesOf(Trailing(rows, k)))) else None
  }

  function TrailingEntries(table: seq<Observation>, keys: seq<ProductId>, k: nat): seq<Option<Series>>
  {
    seq(|keys|, i requires 0 <= i < |keys| => TrailingEntry(table, keys[i], k))
  }

  /** The group loop of `low_risk`: every product with at least `k`
      observations, with its `k` most recent values in chronological order. */
  method SelectTrailing(table: seq<Observation>, k: nat) returns (sel: seq<Series>)
    ensures sel == Somes(TrailingEntries(table, GroupKeys(table), k))
  {
    var keys := GroupKeys(table);
    ghost var entries := TrailingEntries(table, keys, k);
    sel := [];
    var i := 0;
    while i < |keys|
      invariant 0 <= i <= |keys|
      invariant sel == Somes(entries[..i])
    {
      var rows := RowsOf(table, keys[i]);
      if |rows| >= k {
        sel := sel + [Series(keys[i], ValuesOf(Trailing(rows, k)))];
      }
      SomesStep(entries, i);
      i := i + 1;
    }
    assert entries[..i] == entries;
  }

  lemma SelectionExact(table: seq<Observation>, k: nat, e: Series)
    ensures e in Somes(TrailingEntries(table, GroupKeys(table), k)) <==>
      (exists i :: 0 <= i < |table| && table[i].product == e.product)
      && |RowsOf(table, e.product)| >= k
      && e.values == ValuesOf(Trailing(RowsOf(table, e.product), k))
  {
    var keys := GroupKeys(table);
    var es := TrailingEntries(table, keys, k);
    SomesExact(es);
    GroupKeysExact(table, e.product);
    if Some(e) in es {
      var i :| 0 <= i < |es| && es[i] == Some(e);
      assert es[i] == TrailingEntry(table, keys[i], k);
      assert keys[i] == e.product;
    }
    if e.product in keys && |RowsOf(table, e.product)| >= k && e.values == ValuesOf(Trailing(RowsOf(table, e.product), k)) {
      var i :| 0 <= i < |keys| && keys[i] == e.product;
      assert es[i] == TrailingEntry(table, keys[i], k);
      assert es[i] == Some(e);
    }
  }

  /** The first Products row of a product, the one a filter followed by `iloc[0]` reads. */
  function FirstProduct(products: seq<Product>, p: ProductId): Option<Product>
  {
    if products == [] then None
    else if products[0].id == p then Some(products[0])
    else FirstProduct(products[1..], p)
  }

  /** 1 for a product whose category contains "bond" in any letter case, 0
      for any other product and for one missing from Products. */
  function BondFlag(products: seq<Product>, p: ProductId): real
  {
    match FirstProduct(products, p)
    case None => 0.0
    case Some(prod) => if FindSub(Lower(prod.category), "bond") then 1.0 else 0.0
  }

  lemma {:induction false} FirstProductIsFirst(products: seq<Product>, p: ProductId)
    ensures FirstProduct(products, p).None? <==> forall i :: 0 <= i < |products| ==> products[i].id != p
    ensures FirstProduct(products, p).Some? ==>
      exists i :: 0 <= i < |products| && products[i] == FirstProduct(products, p).value
        && products[i].id == p && forall j :: 0 <= j < i ==> products[j].id != p
    decreases |products|
  {
    if products != [] && products[0].id != p {
      FirstProductIsFirst(products[1..], p);
      assert forall i :: 1 <= i < |products| ==> products[i] == products[1..][i - 1];
      if FirstProduct(products[1..], p).Some? {
        var i :| 0 <= i < |products[1..]| && products[1..][i] == FirstProduct(products[1..], p).value
          && products[1..][i].id == p && forall j :: 0 <= j < i ==> products[1..][j].id != p;
        assert products[i + 1] == products[1..][i];
        assert forall j :: 1 <= j < i + 1 ==> products[j] == products[1..][j - 1];
      }
    }
  }

  /** The mask is 1 exactly when some Products row of the product exists and the
      first such row's category contains "bond" once lower-cased; otherwise 0. */
  lemma BondFlagMeaning(products: seq<Product>, p: ProductId)
    ensures BondFlag(products, p) == 0.0 || BondFlag(products, p) == 1.0
    ensures BondFlag(products, p) == 1.0 <==>
      exists i :: 0 <= i < |products| && products[i].id == p
        && (forall j :: 0 <= j < i ==> products[j].id != p)
        && ContainsSub(Lower(products[i].category), "bond")
  {
    FirstProductIsFirst(products, p);
    if BondFlag(products, p) == 1.0 {
      var i :| 0 <= i < |products| && products[i] == FirstProduct(products, p).value
        && products[i].id == p && forall j :: 0 <= j < i ==> products[j].id != p;
    }
    if exists i :: 0 <= i < |products| && products[i].id == p
        && (forall j :: 0 <= j < i ==> products[j].id != p)
        && ContainsSub(Lower(products[i].category), "bond") {
      var i :| 0 <= i < |products| && products[i].id == p
        && (forall j :: 0 <= j < i ==> products[j].id != p)
        && ContainsSub(Lower(products[i].category), "bond");
      var k :| 0 <= k < |products| && products[k] == FirstProduct(products, p).value
        && products[k].id == p && forall j :: 0 <= j < k ==> products[j].id != p;
      assert !(k < i) && !(i < k);
    }
  }

  function BondMaskOf(products: seq<Product>, ids: seq<ProductId>): seq<real>
  {
    seq(|ids|, i requires 0 <= i < |ids| => BondFlag(products, ids[i]))
  }

  /** The loop building the bond mask, one flag per selected product. */
  method BondMask(products: seq<Product>, ids: seq<ProductId>) returns (bond: seq<real>)
    ensures bond == BondMaskOf(products, ids)
  {
    bond := [];
    var i := 0;
    while i < |ids|
      invariant 0 <= i <= |ids|
      invariant |bond| == i && forall j :: 0 <= j < i ==> bond[j] == BondFlag(products, ids[j])
    {
      var row := FirstProduct(products, ids[i]);
      if row.Some? {
        var isBond := FindSub(Lower(row.value.category), "bond");
        bond := bond + [if isBond then 1.0 else 0.0];
      } else {
        bond := bond + [0.0];
      }
      i := i + 1;
    }
  }

  /** The run `low_risk` hands to the optimiser. */
  function LowRiskProgram(sel: seq<Series>, bond: seq<real>, targetVolatility: real): (p: Program)
    ensures |p.x0| == |sel| && p.lower == 0.0 && p.upper == 1.0
    ensures p.mask == bond && p.maskMin == Some(MinBondShare)
  {
    Program(TrackVolatility(ValuesOfAll(sel), targetVolatility, TradingYear),
            EqualSplit(|sel|), 0.0, 1.0, bond, Some(MinBondShare), None, None)
  }

  /** `low_risk` starts the optimiser from the equal split, which meets the sum
      constraint and the [0, 1] bounds. */
  lemma LowRiskStartsInside(sel: seq<Series>, bond: seq<real>, targetVolatility: real)
    requires sel != []
    ensures var p := LowRiskProgram(sel, bond, targetVolatility);
      && p.x0 == EqualSplit(|sel|) && Sum(p.x0) == 1.0
      && forall i :: 0 <= i < |sel| ==> p.lower <= p.x0[i] <= p.upper
  {
    EqualSplitSumsToOne(|sel|);
  }

  /** What `low_risk` returns for given tables, optimiser and volatility target. */
  function LowRiskOutcome(table: seq<Observation>, products: seq<Product>, solve: Solver, targetVolatility: real): Option<Frame>
    requires SolverShape(solve)
  {
    var sel := Somes(TrailingEntries(table, GroupKeys(table), TradingYear));
    if sel == [] then None
    else
      var sol := solve(LowRiskProgram(sel, BondMaskOf(products, IdsOf(sel)), targetVolatility));
      if !sol.success then None else Some(Zip(IdsOf(sel), sol.x))
  }

  /** `low_risk`: select, build the bond mask, run the optimiser, and return
      its weights indexed by product when it succeeds. */
  method LowRisk(table: seq<Observation>, products: seq<Product>, solve: Solver, targetVolatility: real)
    returns (r: Option<Frame>)
    requires SolverShape(solve)
    ensures r == LowRiskOutcome(table, products, solve, targetVolatility)
  {
    var sel := SelectTrailing(table, TradingYear);
    if sel == [] {
      return None;
    }
    var ids := IdsOf(sel);
    var bond := BondMask(products, ids);
    var result := solve(LowRiskProgram(sel, bond, targetVolatility));
    if !result.success {
      return None;
    }
    r := Some(Zip(ids, result.x));
  }

  /** Without a product holding a full year of observations there is nothing to invest in. */
  lemma LowRiskNeedsAFullYear(table: seq<Observation>, products: seq<Product>, solve: Solver, targetVolatility: real)
    requires SolverShape(solve)
    requires forall p :: |RowsOf(table, p)| < TradingYear
    ensures LowRiskOutcome(table, products, solve, targetVolatility) == None
  {
    var es := TrailingEntries(table, GroupKeys(table), TradingYear);
    SomesEmpty(es);
  }

  /** Every product of a `low_risk` portfolio has a full year of observations,
      and with an optimiser that honours its constraints the weights sum to 1,
      lie in [0, 1], and put at least 60% in bonds. */
  lemma LowRiskPortfolio(table: seq<Observation>, products: seq<Product>, solve: Solver, targetVolatility: real, f: Frame)
    requires SolverShape(solve)
    requires LowRiskOutcome(table, products, solve, targetVolatility) == Some(f)
    ensures forall i :: 0 <= i < |f| ==> |RowsOf(table, f[i].product)| >= TradingYear
    ensures Honours(solve) ==>
      && WeightSum(f) == 1.0
      && (forall i :: 0 <= i < |f| ==> 0.0 <= f[i].weight <= 1.0)
      && Dot(BondMaskOf(products, seq(|f|, i requires 0 <= i < |f| => f[i].product)), Weights(f)) >= MinBondShare
  {
    var es := TrailingEntries(table, GroupKeys(table), TradingYear);
    var sel := Somes(es);
    var ids := IdsOf(sel);
    var sol := solve(LowRiskProgram(sel, BondMaskOf(products, ids), targetVolatility));
    ZipWeights(ids, sol.x);
    assert seq(|f|, i requires 0 <= i < |f| => f[i].product) == ids;
    forall i | 0 <= i < |f|
      ensures |RowsOf(table, f[i].product)| >= TradingYear
    {
      SelectedHasAFullYear(es, table, sel[i]);
    }
  }

  lemma SelectedHasAFullYear(es: seq<Option<Series>>, table: seq<Observation>, e: Series)
    requires es == TrailingEntries(table, GroupKeys(table), TradingYear)
    requires e in Somes(es)
    ensures |RowsOf(table, e.product)| >= TradingYear
  {
    SomesExact(es);
    var j :| 0 <= j < |es| && es[j] == Some(e);
  }

  // ---------------------------------------------------------------- linear_strategy

  /** A fitted regression model: the next return it predicts from a window of
      returns, or None when prediction raises. */
  type Predictor = seq<Value> -> Option<real>

  datatype Prediction = Prediction(product: ProductId, value: real)

  /** The model's input for one group: its `w` most recent values dated
      strictly before `target`, in chronological order, when it has that many. */
  function Features(rows: seq<Observation>, target: Date, w: nat): Option<seq<Value>>
  {
    var before := Before(rows, target);
    if |before| < w then None else Some(ValuesOf(Trailing(before, w)))
  }

  /** The features are rows of the group dated before `target`, and every other
      such row is no later than any of them. */
  lemma FeaturesAreLatestBefore(rows: seq<Observation>, target: Date, w: nat)
    requires w <= |Before(rows, target)|
    ensures forall o :: o in Trailing(Before(rows, target), w) ==> o in rows && o.date < target
    ensures forall o, j :: o in rows && o.date < target && o !in Trailing(Before(rows, target), w) && 0 <= j < w ==>
      o.date <= Trailing(Before(rows, target), w)[j].date
  {
    var before := Before(rows, target);
    var kept := Trailing(before, w);
    TrailingIsMostRecent(before, w);
    MostRecentSplit(Older(before, w), kept, before);
    forall o | o in kept
      ensures o in rows && o.date < target
    {
      BeforeExact(rows, target, o);
    }
    forall o, j | o in rows && o.date < target && o !in kept && 0 <= j < w
      ensures o.date <= kept[j].date
    {
      BeforeExact(rows, target, o);
    }
  }

  /** Splitting a group into older rows and kept rows, none of the older later
      than any kept one: kept rows come from the group, and a row left out is
      no later than any kept row. */
  lemma MostRecentSplit(older: seq<Observation>, kept: seq<Observation>, all: seq<Observation>)
    requires multiset(older) + multiset(kept) == multiset(all)
    requires forall i, j :: 0 <= i < |older| && 0 <= j < |kept| ==> older[i].date <= kept[j].date
    ensures forall o :: o in kept ==> o in all
    ensures forall o, j :: o in all && o !in kept && 0 <= j < |kept| ==> o.date <= kept[j].date
  {
    forall o | o in kept
      ensures o in all
    {
      assert multiset(all)[o] == multiset(older)[o] + multiset(kept)[o];
      assert o in multiset(kept);
      assert o in multiset(all);
    }
    forall o, j | o in all && o !in kept && 0 <= j < |kept|
      ensures o.date <= kept[j].date
    {
      assert o in multiset(all) && o !in multiset(kept);
      assert multiset(all)[o] == multiset(older)[o] + multiset(kept)[o];
      assert o in multiset(older);
      var i :| 0 <= i < |older| && older[i] == o;
    }
  }

  function PredictionEntry(table: seq<Observation>, p: ProductId, target: Date, w: nat, predict: Predictor): Option<Prediction>
  {
    match Features(RowsOf(table, p), target, w)
    case None => None
    case Some(x) =>
      match predict(x)
      case None => None
      case Some(v) => Some(Prediction(p, v))
  }

  function PredictionEntries(table: seq<Observation>, keys: seq<ProductId>, target: Date, w: nat, predict: Predictor)
    : (es: seq<Option<Prediction>>)
    ensures |es| == |keys| && forall i :: 0 <= i < |keys| ==> es[i] == PredictionEntry(table, keys[i], target, w, predict)
  {
    seq(|keys|, i requires 0 <= i < |keys| => PredictionEntry(table, keys[i], target, w, predict))
  }

  /** The prediction loop: one prediction per product with enough history
      before the target date whose prediction does not raise. */
  method Predict(table: seq<Observation>, target: Date, w: nat, predict: Predictor) returns (preds: seq<Prediction>)
    ensures preds == Somes(PredictionEntries(table, GroupKeys(table), target, w, predict))
  {
    var keys := GroupKeys(table);
    ghost var entries := PredictionEntries(table, keys, target, w, predict);
    preds := [];
    var i := 0;
    while i < |keys|
      invariant 0 <= i <= |keys|
      invariant preds == Somes(entries[..i])
    {
      var group := Before(RowsOf(table, keys[i]), target);
      if |group| >= w {
        var features := ValuesOf(Trailing(group, w));
        var pred := predict(features);
        if pred.Some? {
          preds := preds + [Prediction(keys[i], pred.value)];
        }
      }
      SomesStep(entries, i);
      i := i + 1;
    }
    assert entries[..i] == entries;
  }

  lemma PredictionsExact(table: seq<Observation>, target: Date, w: nat, predict: Predictor, e: Prediction)
    ensures e in Somes(PredictionEntries(table, GroupKeys(table), target, w, predict)) <==>
      (exists i :: 0 <= i < |table| && table[i].product == e.product)
      && Features(RowsOf(table, e.product), target, w).Some?
      && predict(Features(RowsOf(table, e.product), target, w).value) == Some(e.value)
  {
    var keys := GroupKeys(table);
    var es := PredictionEntries(table, keys, target, w, predict);
    SomesExact(es);
    GroupKeysExact(table, e.product);
    if Some(e) in es {
      var i :| 0 <= i < |es| && es[i] == Some(e);
      assert keys[i] == e.product;
    }
    if e.product in keys && Features(RowsOf(table, e.product), target, w).Some?
      && predict(Features(RowsOf(table, e.product), target, w).value) == Some(e.value) {
      var i :| 0 <= i < |keys| && keys[i] == e.product;
      assert es[i] == Some(e);
    }
  }

  lemma PredictedFromFeatures(table: seq<Observation>, target: Date, w: nat, predict: Predictor, e: Prediction)
    requires e in Somes(PredictionEntries(table, GroupKeys(table), target, w, predict))
    ensures Features(RowsOf(table, e.product), target, w).Some?
    ensures predict(Features(RowsOf(table, e.product), target, w).value) == Some(e.value)
  {
    var es := PredictionEntries(table, GroupKeys(table), target, w, predict);
    SomesExact(es);
    var i :| 0 <= i < |es| && es[i] == Some(e);
  }

  function Abs(x: real): real { if x < 0.0 then -x else x }

  /** The sum of the absolute predicted returns. */
  function AbsSum(preds: seq<Prediction>): (t: real)
    ensures t >= 0.0
  {
    if preds == [] then 0.0 else AbsSum(preds[..|preds| - 1]) + Abs(preds[|preds| - 1].value)
  }

  /** The sum of the absolute weights of a frame. */
  function AbsWeightSum(f: Frame): (t: real)
    ensures t >= 0.0
  {
    if f == [] then 0.0 else AbsWeightSum(f[..|f| - 1]) + Abs(f[|f| - 1].weight)
  }

  /** Mean absolute prediction the strategy requires, strictly, before investing. */
  const MinMeanAbsPrediction: real := 0.0025

  /** Each prediction divided by the total absolute prediction. */
  function Scaled(preds: seq<Prediction>, total: real): Frame
    requires total > 0.0
  {
    seq(|preds|, i requires 0 <= i < |preds| => Holding(preds[i].product, preds[i].value / total))
  }

  /** The weighting rule of `linear_strategy`. */
  function Allocate(preds: seq<Prediction>): Option<Frame>
  {
    if preds == [] then None
    else
      var total := AbsSum(preds);
      var mean := total / (|preds| as real);
      if total == 0.0 then None
      else if mean > MinMeanAbsPrediction then Some(Scaled(preds, total))
      else None
  }

  /** The strategy invests exactly when there is a prediction and the mean
      absolute prediction is strictly above the threshold. */
  lemma AllocateInvests(preds: seq<Prediction>)
    ensures Allocate(preds).Some? <==> preds != [] && AbsSum(preds) / (|preds| as real) > MinMeanAbsPrediction
  {
    if preds != [] && AbsSum(preds) == 0.0 {
      assert AbsSum(preds) / (|preds| as real) == 0.0;
    }
  }

  lemma {:induction false} ScaledAbsSum(preds: seq<Prediction>, total: real)
    requires total > 0.0
    ensures AbsWeightSum(Scaled(preds, total)) == AbsSum(preds) / total
  {
    if preds != [] {
      var n := |preds| - 1;
      ScaledAbsSum(preds[..n], total);
      assert Scaled(preds, total)[..n] == Scaled(preds[..n], total);
      AbsOfQuotient(preds[n].value, total);
      AddQuotients(AbsSum(preds[..n]), Abs(preds[n].value), total);
    }
  }

  lemma AbsOfQuotient(v: real, t: real)
    requires t > 0.0
    ensures Abs(v / t) == Abs(v) / t
  {
    if v < 0.0 {
      assert v / t < 0.0;
      assert -(v / t) == (-v) / t;
    } else {
      assert v / t >= 0.0;
    }
  }

  lemma AddQuotients(a: real, b: real, t: real)
    requires t > 0.0
    ensures a / t + b / t == (a + b) / t
  {
  }

  /** Invested weights keep each product and the sign of its prediction, are
      the predictions scaled by one positive factor, and their absolute values
      sum to 1. */
  lemma AllocateWeights(preds: seq<Prediction>, f: Frame)
    requires Allocate(preds) == Some(f)
    ensures |f| == |preds| && AbsWeightSum(f) == 1.0
    ensures forall i :: 0 <= i < |f| ==>
      && f[i].product == preds[i].product
      && f[i].weight * AbsSum(preds) == preds[i].value
      && (f[i].weight > 0.0 <==> preds[i].value > 0.0)
      && (f[i].weight < 0.0 <==> preds[i].value < 0.0)
  {
    var total := AbsSum(preds);
    assert total > 0.0 && f == Scaled(preds, total);
    ScaledAbsSum(preds, total);
    SelfQuotient(total);
    ScaledWeights(preds, total);
  }

  lemma ScaledWeights(preds: seq<Prediction>, total: real)
    requires total > 0.0
    ensures forall i :: 0 <= i < |preds| ==>
      && Scaled(preds, total)[i].weight * total == preds[i].value
      && (Scaled(preds, total)[i].weight > 0.0 <==> preds[i].value > 0.0)
      && (Scaled(preds, total)[i].weight < 0.0 <==> preds[i].value < 0.0)
  {
    forall i | 0 <= i < |preds|
      ensures Scaled(preds, total)[i].weight * total == preds[i].value
      ensures Scaled(preds, total)[i].weight > 0.0 <==> preds[i].value > 0.0
      ensures Scaled(preds, total)[i].weight < 0.0 <==> preds[i].value < 0.0
    {
      QuotientKeepsSign(preds[i].value, total);
    }
  }

  lemma SelfQuotient(t: real)
    requires t > 0.0
    ensures t / t == 1.0
  {
  }

  lemma QuotientKeepsSign(v: real, t: real)
    requires t > 0.0
    ensures (v / t) * t == v
    ensures v / t > 0.0 <==> v > 0.0
    ensures v / t < 0.0 <==> v < 0.0
  {
  }

  /** Two opposite predictions of equal size, large enough to invest, get
      weights of one half long and one half short, whose plain sum is 0, not 1. */
  lemma HedgedPredictionsSumToZero(a: ProductId, b: ProductId, v: real)
    requires v > MinMeanAbsPrediction
    ensures Allocate([Prediction(a, v), Prediction(b, -v)]) == Some([Holding(a, 0.5), Holding(b, -0.5)])
    ensures WeightSum([Holding(a, 0.5), Holding(b, -0.5)]) == 0.0
  {
    var preds := [Prediction(a, v), Prediction(b, -v)];
    assert preds[..1] == [Prediction(a, v)];
    assert [Prediction(a, v)][..0] == [];
    assert AbsSum([Prediction(a, v)]) == v;
    assert AbsSum(preds) == 2.0 * v;
    HalfQuotient(v);
    assert Scaled(preds, 2.0 * v) == [Holding(a, 0.5), Holding(b, -0.5)];
    WeightSumSnoc([Holding(a, 0.5)], Holding(b, -0.5));
    WeightSumSnoc([], Holding(a, 0.5));
    assert [] + [Holding(a, 0.5)] == [Holding(a, 0.5)];
    assert [Holding(a, 0.5)] + [Holding(b, -0.5)] == [Holding(a, 0.5), Holding(b, -0.5)];
    assert Weights([]) == [];
  }

  lemma HalfQuotient(v: real)
    requires v > 0.0
    ensures v / (2.0 * v) == 0.5 && -v / (2.0 * v) == -0.5
  {
  }

  lemma UnitQuotient(x: real)
    requires x != 0.0
    ensures x / x == 1.0 && -x / x == -1.0
  {
  }

  /** With a single prediction the threshold is strict: it invests exactly when
      the prediction exceeds 0.0025 in absolute value, and then puts the whole
      weight on that product, long or short by the prediction's sign. */
  lemma ThresholdIsStrict(id: ProductId, v: real)
    ensures Allocate([Prediction(id, v)]).Some? <==> Abs(v) > MinMeanAbsPrediction
    ensures Abs(v) > MinMeanAbsPrediction ==>
      Allocate([Prediction(id, v)]) == Some([Holding(id, if v < 0.0 then -1.0 else 1.0)])
  {
    var preds := [Prediction(id, v)];
    assert preds[..0] == [];
    assert AbsSum(preds) == Abs(v);
    if Abs(v) > MinMeanAbsPrediction {
      assert Scaled(preds, Abs(v))[0] == Holding(id, v / Abs(v));
      UnitQuotient(Abs(v));
      assert Scaled(preds, Abs(v)) == [Holding(id, if v < 0.0 then -1.0 else 1.0)];
    }
  }

  /** What `linear_strategy` returns: nothing when the model cannot be loaded,
      otherwise the weighting of its predictions. */
  function LinearOutcome(table: seq<Observation>, target: Date, w: nat, model: Option<Predictor>): Option<Frame>
  {
    match model
    case None => None
    case Some(predict) => Allocate(Somes(PredictionEntries(table, GroupKeys(table), target, w, predict)))
  }

  method LinearStrategy(table: seq<Observation>, target: Date, w: nat, model: Option<Predictor>) returns (r: Option<Frame>)
    ensures r == LinearOutcome(table, target, w, model)
  {
    if model.None? {
      return None;
    }
    var preds := Predict(table, target, w, model.value);
    r := Allocate(preds);
  }

  /** Every product of a `linear_strategy` portfolio has `w` observations
      before the target date, and the model's prediction from them has the
      sign of the product's weight. */
  lemma LinearPortfolio(table: seq<Observation>, target: Date, w: nat, predict: Predictor, f: Frame)
    requires LinearOutcome(table, target, w, Some(predict)) == Some(f)
    ensures AbsWeightSum(f) == 1.0
    ensures forall i :: 0 <= i < |f| ==>
      && |Before(RowsOf(table, f[i].product), target)| >= w
      && predict(Features(RowsOf(table, f[i].product), target, w).value).Some?
      && (f[i].weight > 0.0 <==> predict(Features(RowsOf(table, f[i].product), target, w).value).value > 0.0)
      && (f[i].weight < 0.0 <==> predict(Features(RowsOf(table, f[i].product), target, w).value).value < 0.0)
  {
    var preds := Somes(PredictionEntries(table, GroupKeys(table), target, w, predict));
    AllocateWeights(preds, f);
    forall i | 0 <= i < |f|
      ensures |Before(RowsOf(table, f[i].product), target)| >= w
      ensures predict(Features(RowsOf(table, f[i].product), target, w).value) == Some(preds[i].value)
    {
      assert preds[i] in preds;
      PredictedFromFeatures(table, target, w, predict, preds[i]);
    }
  }

  // ---------------------------------------------------------------- high_yield

  predicate IsEquity(prod: Product)
  {
    Lower(prod.category) == "equity"
  }

  /** The ids of the equity products, in table order. */
  function EquityIds(products: seq<Product>): seq<ProductId>
  {
    if products == [] then []
    else EquityIds(products[..|products| - 1]) + (if IsEquity(products[|products| - 1]) then [products[|products| - 1].id] else [])
  }

  lemma {:induction false} EquityIdsExact(products: seq<Product>, p: ProductId)
    ensures p in EquityIds(products) <==> exists i :: 0 <= i < |products| && products[i].id == p && IsEquity(products[i])
  {
    if products != [] {
      var n := |products| - 1;
      EquityIdsExact(products[..n], p);
      assert forall i :: 0 <= i < n ==> products[..n][i] == products[i];
    }
  }

  /** The Returns rows of the listed products, in table order. */
  function InIds(table: seq<Observation>, ids: seq<ProductId>): seq<Observation>
  {
    if table == [] then []
    else InIds(table[..|table| - 1], ids) + (if table[|table| - 1].product in ids then [table[|table| - 1]] else [])
  }

  lemma {:induction false} InIdsExact(table: seq<Observation>, ids: seq<ProductId>, o: Observation)
    ensures o in InIds(table, ids) <==> o in table && o.product in ids
  {
    if table != [] {
      var n := |table| - 1;
      InIdsExact(table[..n], ids, o);
      assert table == table[..n] + [table[n]];
    }
  }

  /** The entry of one group: its values dated no earlier than `days` before its
      own latest date, in chronological order, unless there are none. */
  function RecentEntry(table: seq<Observation>, p: ProductId, days: int): Option<Series>
  {
    RecentOf(p, RowsOf(table, p), days)
  }

  function RecentOf(p: ProductId, rows: seq<Observation>, days: int): Option<Series>
  {
    if rows == [] then None
    else
      var recent := Since(rows, LatestDate(rows) - days);
      if recent == [] then None else Some(Series(p, ValuesOf(Chronological(recent))))
  }

  function RecentEntries(table: seq<Observation>, keys: seq<ProductId>, days: int): seq<Option<Series>>
  {
    seq(|keys|, i requires 0 <= i < |keys| => RecentEntry(table, keys[i], days))
  }

  lemma GroupIsNotEmpty(table: seq<Observation>, p: ProductId)
    requires p in GroupKeys(table)
    ensures RowsOf(table, p) != []
  {
    GroupKeysExact(table, p);
    var i :| 0 <= i < |table| && table[i].product == p;
    RowsOfExact(table, p, table[i]);
  }

  /** The group loop of `high_yield`. */
  method SelectRecent(table: seq<Observation>, days: int) returns (sel: seq<Series>)
    ensures sel == Somes(RecentEntries(table, GroupKeys(table), days))
  {
    var keys := GroupKeys(table);
    ghost var entries := RecentEntries(table, keys, days);
    sel := [];
    var i := 0;
    while i < |keys|
      invariant 0 <= i <= |keys|
      invariant sel == Somes(entries[..i])
    {
      var entry := RecentEntry(table, keys[i], days);
      if entry.Some? {
        sel := sel + [entry.value];
      }
      SomesStep(entries, i);
      i := i + 1;
    }
    assert entries[..i] == entries;
  }

  /** A window holds exactly the group's rows dated from `days` before the
      group's latest date up to that date; the entry lists their values sorted
      by date. */
  lemma RecentWindow(rows: seq<Observation>, days: int)
    requires rows != []
    ensures forall o :: o in Since(rows, LatestDate(rows) - days) <==>
      o in rows && LatestDate(rows) - days <= o.date <= LatestDate(rows)
  {
    forall o
      ensures o in Since(rows, LatestDate(rows) - days) <==> o in rows && LatestDate(rows) - days <= o.date <= LatestDate(rows)
    {
      SinceExact(rows, LatestDate(rows) - days, o);
      if o in rows {
        LatestDateBound(rows, o);
      }
    }
  }

  /** The finite values of a series. */
  function Finite(vs: seq<Value>): seq<real>
  {
    if vs == [] then []
    else Finite(vs[..|vs| - 1]) + (if vs[|vs| - 1].Num? then [vs[|vs| - 1].x] else [])
  }

  /** A series mean that skips NaN: infinities of both signs give NaN, one
      infinity dominates, and a series with nothing but NaN has NaN mean. */
  function MeanSkipNaN(vs: seq<Value>): Value
  {
    if PosInf in vs && NegInf in vs then NaN
    else if PosInf in vs then PosInf
    else if NegInf in vs then NegInf
    else if Finite(vs) == [] then NaN
    else Num(Sum(Finite(vs)) / (|Finite(vs)| as real))
  }

  lemma FiniteSkipsNaN(vs: seq<Value>)
    ensures Finite(vs + [NaN]) == Finite(vs)
  {
    assert (vs + [NaN])[..|vs|] == vs;
  }

  /** Appending a NaN leaves the mean unchanged. */
  lemma MeanSkipsNaN(vs: seq<Value>)
    ensures MeanSkipNaN(vs + [NaN]) == MeanSkipNaN(vs)
  {
    FiniteSkipsNaN(vs);
    assert forall v :: v in vs + [NaN] && v != NaN ==> v in vs;
  }

  lemma {:induction false} FiniteOfNums(vs: seq<Value>)
    requires forall i :: 0 <= i < |vs| ==> vs[i].Num?
    ensures |Finite(vs)| == |vs|
  {
    if vs != [] {
      FiniteOfNums(vs[..|vs| - 1]);
    }
  }

  /** On a series of finite values the mean is the plain arithmetic mean. */
  lemma MeanOfFiniteSeries(vs: seq<Value>)
    requires vs != [] && forall i :: 0 <= i < |vs| ==> vs[i].Num?
    ensures MeanSkipNaN(vs) == Num(Sum(Finite(vs)) / (|vs| as real))
  {
    FiniteOfNums(vs);
    assert PosInf !in vs && NegInf !in vs;
  }

  function Means(sel: seq<Series>): seq<Value>
  {
    seq(|sel|, i requires 0 <= i < |sel| => MeanSkipNaN(sel[i].values))
  }

  /** The run `high_yield` hands to the optimiser. */
  function HighYieldProgram(mu: seq<Value>): (p: Program)
    ensures |p.x0| == |mu| && p.lower == -1.0 && p.upper == 1.0 && p.maskMin == None
  {
    Program(MaximiseMean(mu), EqualSplit(|mu|), -1.0, 1.0, [], None, Some(5000), Some(0.00000001))
  }

  /** `high_yield` starts the optimiser from the equal split, which meets the sum
      constraint and the [−1, 1] bounds. */
  lemma HighYieldStartsInside(mu: seq<Value>)
    requires mu != []
    ensures var p := HighYieldProgram(mu);
      && p.x0 == EqualSplit(|mu|) && Sum(p.x0) == 1.0
      && forall i :: 0 <= i < |mu| ==> p.lower <= p.x0[i] <= p.upper
  {
    EqualSplitSumsToOne(|mu|);
  }

  /** What `high_yield` returns. */
  function HighYieldOutcome(table: seq<Observation>, products: seq<Product>, solve: Solver, days: int): Option<Frame>
    requires SolverShape(solve)
  {
    var ids := EquityIds(products);
    if ids == [] then None
    else
      var df := InIds(table, ids);
      var sel := Somes(RecentEntries(df, GroupKeys(df), days));
      if sel == [] then None
      else
        var sol := solve(HighYieldProgram(Means(sel)));
        if !sol.success then None else Some(Zip(IdsOf(sel), sol.x))
  }

  method HighYield(table: seq<Observation>, products: seq<Product>, solve: Solver, days: int) returns (r: Option<Frame>)
    requires SolverShape(solve)
    ensures r == HighYieldOutcome(table, products, solve, days)
  {
    var equityIds := EquityIds(products);
    if equityIds == [] {
      return None;
    }
    var df := InIds(table, equityIds);
    var sel := SelectRecent(df, days);
    if sel == [] {
      return None;
    }
    var result := solve(HighYieldProgram(Means(sel)));
    if !result.success {
      return None;
    }
    r := Some(Zip(IdsOf(sel), result.x));
  }

  lemma SelectedIsEquity(table: seq<Observation>, products: seq<Product>, days: int, e: Series)
    requires e in Somes(RecentEntries(InIds(table, EquityIds(products)), GroupKeys(InIds(table, EquityIds(products))), days))
    ensures exists j :: 0 <= j < |products| && products[j].id == e.product && IsEquity(products[j])
  {
    var df := InIds(table, EquityIds(products));
    var es := RecentEntries(df, GroupKeys(df), days);
    SomesExact(es);
    var k :| 0 <= k < |es| && es[k] == Some(e);
    var p := GroupKeys(df)[k];
    GroupIsNotEmpty(df, p);
    var o := RowsOf(df, p)[0];
    assert o in RowsOf(df, p);
    RowsOfExact(df, p, o);
    InIdsExact(table, EquityIds(products), o);
    EquityIdsExact(products, p);
  }

  /** Every product of a `high_yield` portfolio is an equity, and with an
      optimiser that honours its constraints the weights sum to 1 and lie in
      [-1, 1]. */
  lemma HighYieldPortfolio(table: seq<Observation>, products: seq<Product>, solve: Solver, days: int, f: Frame)
    requires SolverShape(solve)
    requires HighYieldOutcome(table, products, solve, days) == Some(f)
    ensures forall i :: 0 <= i < |f| ==> exists j :: 0 <= j < |products| && products[j].id == f[i].product && IsEquity(products[j])
    ensures Honours(solve) ==> WeightSum(f) == 1.0 && forall i :: 0 <= i < |f| ==> -1.0 <= f[i].weight <= 1.0
  {
    var df := InIds(table, EquityIds(products));
    var sel := Somes(RecentEntries(df, GroupKeys(df), days));
    var sol := solve(HighYieldProgram(Means(sel)));
    ZipWeights(IdsOf(sel), sol.x);
    forall i | 0 <= i < |f|
      ensures exists j :: 0 <= j < |products| && products[j].id == f[i].product && IsEquity(products[j])
    {
      assert sel[i] in sel;
      SelectedIsEquity(table, products, days, sel[i]);
    }
  }

  /** With a negative look-back no row reaches the window and nothing is invested. */
  lemma NegativeLookBackInvestsNothing(table: seq<Observation>, products: seq<Product>, solve: Solver, days: int)
    requires SolverShape(solve)
    requires days < 0
    ensures HighYieldOutcome(table, products, solve, days) == None
  {
    var df := InIds(table, EquityIds(products));
    var es := RecentEntries(df, GroupKeys(df), days);
    NoRecentEntries(df, GroupKeys(df), days);
    SomesEmpty(es);
  }

  lemma NoRecentEntries(table: seq<Observation>, keys: seq<ProductId>, days: int)
    requires days < 0
    ensures forall i :: 0 <= i < |keys| ==> RecentEntries(table, keys, days)[i].None?
  {
    forall i | 0 <= i < |keys|
      ensures RecentEntry(table, keys[i], days).None?
    {
      NoRecentEntry(table, keys[i], days);
    }
  }

  lemma NoRecentEntry(table: seq<Observation>, p: ProductId, days: int)
    requires days < 0
    ensures RecentEntry(table, p, days).None?
  {
    NoRecentOf(p, RowsOf(table, p), days);
  }

  lemma NoRecentOf(p: ProductId, rows: seq<Observation>, days: int)
    requires days < 0
    ensures RecentOf(p, rows, days).None?
  {
    if rows != [] {
      EmptyWindow(rows, days);
    }
  }

  lemma EmptyWindow(rows: seq<Observation>, days: int)
    requires rows != [] && days < 0
    ensures Since(rows, LatestDate(rows) - days) == []
  {
    forall o | o in rows
      ensures o.date < LatestDate(rows) - days
    {
      LatestDateBound(rows, o);
    }
    SinceNone(rows, LatestDate(rows) - days);
  }

  lemma {:induction false} SinceNone(rows: seq<Observation>, from: Date)
    requires forall o :: o in rows ==> o.date < from
    ensures Since(rows, from) == []
  {
    if rows != [] {
      var n := |rows| - 1;
      assert rows == rows[..n] + [rows[n]];
      SinceNone(rows[..n], from);
    }
  }
}
