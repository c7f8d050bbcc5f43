/** Construction of the regression's training set: for every product, sliding
    windows of consecutive returns as features and the return that follows
    as the label, without NaN, then restricted to finite rows. Fitting the
    regression and saving it are outside the model. */
module Training {
  import opened Common

  /** One candidate example: a window of returns and the return after it. */
  datatype Example = Example(window: seq<Value>, next: Value)

  /** What the training function ends with: one of its two refusals, or the
      feature matrix and label vector handed to the regression. */
  datatype Fit =
    | NotEnoughData
    | NoFiniteData
    | Trained(features: seq<seq<real>>, labels: seq<real>)

  // ---------------------------------------------------------------- the training period

  /** The Returns rows dated within [start, end], bounds included. */
  function InPeriod(table: seq<Observation>, start: Date, end: Date): seq<Observation>
  {
    if table == [] then []
    else
      var o := table[|table| - 1];
      InPeriod(table[..|table| - 1], start, end) + (if start <= o.date <= end then [o] else [])
  }

  lemma {:induction false} InPeriodExact(table: seq<Observation>, start: Date, end: Date, o: Observation)
    ensures o in InPeriod(table, start, end) <==> o in table && start <= o.date <= end
  {
    if table != [] {
      var n := |table| - 1;
      InPeriodExact(table[..n], start, end, o);
      assert table == table[..n] + [table[n]];
    }
  }

  /** A product's values in the period, sorted by date. */
  function SeriesOf(df: seq<Observation>, p: ProductId): seq<Value>
  {
    ValuesOf(Chronological(RowsOf(df, p)))
  }

  // ---------------------------------------------------------------- windows of one product

  predicate HasNaN(e: Example)
  {
    NaN in e.window || e.next == NaN
  }

  /** The candidate example starting at position `i`. */
  function WindowAt(values: seq<Value>, w: nat, i: nat): (e: Example)
    requires i + w < |values|
    ensures |e.window| == w
  {
    Example(values[i..i + w], values[i + w])
  }

  /** The examples kept among the first `k` candidates: those without NaN. */
  function WindowsUpTo(values: seq<Value>, w: nat, k: nat): seq<Example>
    requires k + w <= |values|
  {
    if k == 0 then []
    else WindowsUpTo(values, w, k - 1) + (if HasNaN(WindowAt(values, w, k - 1)) then [] else [WindowAt(values, w, k - 1)])
  }

  /** The examples of one product: none unless it has more than `w` values,
      otherwise one per start position whose window and label hold no NaN. */
  function ProductExamples(values: seq<Value>, w: nat): seq<Example>
  {
    if |values| > w then WindowsUpTo(values, w, |values| - w) else []
  }

  lemma {:induction false} WindowsUpToExact(values: seq<Value>, w: nat, k: nat, e: Example)
    requires k + w <= |values|
    ensures e in WindowsUpTo(values, w, k) <==>
      exists i :: 0 <= i < k && e == WindowAt(values, w, i) && !HasNaN(e)
  {
    if k > 0 {
      WindowsUpToExact(values, w, k - 1, e);
    }
  }

  lemma {:induction false} WindowsUpToCount(values: seq<Value>, w: nat, k: nat)
    requires k + w <= |values|
    ensures |WindowsUpTo(values, w, k)| <= k
    ensures forall j :: 0 <= j < |WindowsUpTo(values, w, k)| ==> |WindowsUpTo(values, w, k)[j].window| == w
    ensures forall j :: 0 <= j < |WindowsUpTo(values, w, k)| ==> !HasNaN(WindowsUpTo(values, w, k)[j])
  {
    if k > 0 {
      WindowsUpToCount(values, w, k - 1);
    }
  }

  /** An example of a product is exactly a NaN-free window of `w` consecutive
      values together with the value right after it. */
  lemma ProductExamplesExact(values: seq<Value>, w: nat, e: Example)
    ensures e in ProductExamples(values, w) <==>
      exists i :: 0 <= i && i + w < |values| && e == WindowAt(values, w, i) && !HasNaN(e)
  {
    if |values| > w {
      WindowsUpToExact(values, w, |values| - w, e);
    }
  }

  /** A product yields at most n - w examples from n values, none when n <= w,
      each with a window of length w and no NaN. */
  lemma ProductExamplesCount(values: seq<Value>, w: nat)
    ensures |values| <= w ==> ProductExamples(values, w) == []
    ensures |values| > w ==> |ProductExamples(values, w)| <= |values| - w
    ensures forall j :: 0 <= j < |ProductExamples(values, w)| ==>
      |ProductExamples(values, w)[j].window| == w && !HasNaN(ProductExamples(values, w)[j])
  {
    if |values| > w {
      WindowsUpToCount(values, w, |values| - w);
    }
  }

  // ---------------------------------------------------------------- all products

  /** The parts `part(p)` of the listed keys, concatenated in key order. */
  function Gather(part: ProductId -> seq<Example>, keys: seq<ProductId>): seq<Example>
  {
    if keys == [] then [] else Gather(part, keys[..|keys| - 1]) + part(keys[|keys| - 1])
  }

  lemma {:induction false} GatherExact(part: ProductId -> seq<Example>, keys: seq<ProductId>, e: Example)
    ensures e in Gather(part, keys) <==> exists p :: p in keys && e in part(p)
  {
    if keys != [] {
      var n := |keys| - 1;
      GatherExact(part, keys[..n], e);
      assert Gather(part, keys) == Gather(part, keys[..n]) + part(keys[n]);
      if exists p :: p in keys && e in part(p) {
        var p :| p in keys && e in part(p);
        if p != keys[n] {
          assert keys == keys[..n] + [keys[n]];
          assert p in keys[..n];
        }
      }
    }
  }

  /** The examples of one product of the period, as a function of the product. */
  function ProductPart(df: seq<Observation>, w: nat): ProductId -> seq<Example>
  {
    p => ProductExamples(SeriesOf(df, p), w)
  }

  /** The examples of the listed products, product after product. */
  function Examples(df: seq<Observation>, keys: seq<ProductId>, w: nat): seq<Example>
  {
    Gather(ProductPart(df, w), keys)
  }

  lemma ExamplesStep(df: seq<Observation>, keys: seq<ProductId>, w: nat, j: nat)
    requires j < |keys|
    ensures Examples(df, keys[..j + 1], w) == Examples(df, keys[..j], w) + ProductExamples(SeriesOf(df, keys[j]), w)
  {
    assert keys[..j + 1][..j] == keys[..j];
  }

  /** The feature column of a list of examples. */
  function WindowsOf(exs: seq<Example>): seq<seq<Value>>
  {
    seq(|exs|, k requires 0 <= k < |exs| => exs[k].window)
  }

  /** The label column of a list of examples. */
  function LabelsOf(exs: seq<Example>): seq<Value>
  {
    seq(|exs|, k requires 0 <= k < |exs| => exs[k].next)
  }

  lemma ColumnsOfConcat(a: seq<Example>, b: seq<Example>)
    ensures WindowsOf(a + b) == WindowsOf(a) + WindowsOf(b)
    ensures LabelsOf(a + b) == LabelsOf(a) + LabelsOf(b)
  {
    assert WindowsOf(a + b) == WindowsOf(a) + WindowsOf(b);
    assert LabelsOf(a + b) == LabelsOf(a) + LabelsOf(b);
  }

  /** The inner loop: the feature rows and labels of one product's values. */
  method ProductWindows(values: seq<Value>, w: nat) returns (X: seq<seq<Value>>, y: seq<Value>)
    ensures X == WindowsOf(ProductExamples(values, w)) && y == LabelsOf(ProductExamples(values, w))
  {
    X, y := [], [];
    if |values| <= w {
      return;
    }
    var i := 0;
    while i < |values| - w
      invariant 0 <= i <= |values| - w
      invariant X == WindowsOf(WindowsUpTo(values, w, i)) && y == LabelsOf(WindowsUpTo(values, w, i))
    {
      var featureWindow := values[i..i + w];
      var target := values[i + w];
      if !(NaN in featureWindow || target == NaN) {
        ColumnsOfConcat(WindowsUpTo(values, w, i), [WindowAt(values, w, i)]);
        X := X + [featureWindow];
        y := y + [target];
      }
      i := i + 1;
    }
  }

  /** The outer loop over the products of the period, in increasing id order. */
  method CollectExamples(df: seq<Observation>, w: nat) returns (X: seq<seq<Value>>, y: seq<Value>)
    ensures X == WindowsOf(Examples(df, GroupKeys(df), w)) && y == LabelsOf(Examples(df, GroupKeys(df), w))
  {
    var keys := GroupKeys(df);
    X, y := [], [];
    var j := 0;
    while j < |keys|
      invariant 0 <= j <= |keys|
      invariant X == WindowsOf(Examples(df, keys[..j], w)) && y == LabelsOf(Examples(df, keys[..j], w))
    {
      var values := SeriesOf(df, keys[j]);
      var Xp, yp := ProductWindows(values, w);
      ExamplesStep(df, keys, w, j);
      ColumnsOfConcat(Examples(df, keys[..j], w), ProductExamples(values, w));
      X := X + Xp;
      y := y + yp;
      j := j + 1;
    }
    assert keys[..j] == keys;
  }

  // ---------------------------------------------------------------- the finiteness filter

  predicate AllFinite(vs: seq<Value>)
  {
    forall k :: 0 <= k < |vs| ==> vs[k].Num?
  }

  function Reals(vs: seq<Value>): (r: seq<real>)
    requires AllFinite(vs)
    ensures |r| == |vs| && forall k :: 0 <= k < |vs| ==> vs[k] == Num(r[k])
  {
    seq(|vs|, k requires 0 <= k < |vs| => vs[k].x)
  }

  datatype Matrix = Matrix(X: seq<seq<real>>, y: seq<real>)

  /** The rows whose features and label are all finite, in order. */
  function FiniteRows(X: seq<seq<Value>>, y: seq<Value>): (m: Matrix)
    requires |X| == |y|
    ensures |m.X| == |m.y|
  {
    if X == [] then Matrix([], [])
    else
      var n := |X| - 1;
      var rest := FiniteRows(X[..n], y[..n]);
      if AllFinite(X[n]) && y[n].Num? then Matrix(rest.X + [Reals(X[n])], rest.y + [y[n].x]) else rest
  }

  /** Each kept row is a finite input row converted to reals, with its label. */
  lemma {:induction false} FiniteRowsSound(X: seq<seq<Value>>, y: seq<Value>, k: nat)
    requires |X| == |y| && k < |FiniteRows(X, y).X|
    ensures exists j :: (0 <= j < |X| && AllFinite(X[j]) && y[j].Num?
      && FiniteRows(X, y).X[k] == Reals(X[j]) && FiniteRows(X, y).y[k] == y[j].x)
  {
    assert X != [];
    var n := |X| - 1;
    var rest := FiniteRows(X[..n], y[..n]);
    if k < |rest.X| {
      FiniteRowsSound(X[..n], y[..n], k);
      var j :| 0 <= j < n && AllFinite(X[..n][j]) && y[..n][j].Num? && rest.X[k] == Reals(X[..n][j]) && rest.y[k] == y[..n][j].x;
      assert X[..n][j] == X[j] && y[..n][j] == y[j];
      assert FiniteRows(X, y).X[k] == rest.X[k] && FiniteRows(X, y).y[k] == rest.y[k];
    } else {
      assert FiniteRows(X, y).X[k] == Reals(X[n]) && FiniteRows(X, y).y[k] == y[n].x;
    }
  }

  /** Every input row whose features and label are finite is kept. */
  lemma {:induction false} FiniteRowsComplete(X: seq<seq<Value>>, y: seq<Value>, j: nat)
    requires |X| == |y| && j < |X| && AllFinite(X[j]) && y[j].Num?
    ensures exists k :: 0 <= k < |FiniteRows(X, y).X| && FiniteRows(X, y).X[k] == Reals(X[j]) && FiniteRows(X, y).y[k] == y[j].x
  {
    var n := |X| - 1;
    var rest := FiniteRows(X[..n], y[..n]);
    if j < n {
      assert X[..n][j] == X[j] && y[..n][j] == y[j];
      FiniteRowsComplete(X[..n], y[..n], j);
      var k :| 0 <= k < |rest.X| && rest.X[k] == Reals(X[..n][j]) && rest.y[k] == y[..n][j].x;
      assert FiniteRows(X, y).X[k] == rest.X[k] && FiniteRows(X, y).y[k] == rest.y[k];
    } else {
      assert FiniteRows(X, y).X[|rest.X|] == Reals(X[n]) && FiniteRows(X, y).y[|rest.y|] == y[n].x;
    }
  }

  // ---------------------------------------------------------------- fit_model

  /** What the training function hands to the regression, or why it refuses. */
  function FitOutcome(table: seq<Observation>, start: Date, end: Date, w: nat): Fit
  {
    var df := InPeriod(table, start, end);
    var exs := Examples(df, GroupKeys(df), w);
    if exs == [] then NotEnoughData
    else
      var m := FiniteRows(WindowsOf(exs), LabelsOf(exs));
      if m.X == [] then NoFiniteData else Trained(m.X, m.y)
  }

  method FitModel(table: seq<Observation>, start: Date, end: Date, w: nat) returns (r: Fit)
    ensures r == FitOutcome(table, start, end, w)
  {
    var df := InPeriod(table, start, end);
    var X, y := CollectExamples(df, w);
    if X == [] {
      return NotEnoughData;
    }
    var m := FiniteRows(X, y);
    if |m.X| == 0 {
      return NoFiniteData;
    }
    r := Trained(m.X, m.y);
  }

  /** The examples the training function builds from a table and a period. */
  function PeriodExamples(table: seq<Observation>, start: Date, end: Date, w: nat): seq<Example>
  {
    Examples(InPeriod(table, start, end), GroupKeys(InPeriod(table, start, end)), w)
  }

  /** Each training row and its label come from one example whose values are
      all finite. */
  lemma TrainedRowSound(table: seq<Observation>, start: Date, end: Date, w: nat, X: seq<seq<real>>, y: seq<real>, k: nat)
    requires FitOutcome(table, start, end, w) == Trained(X, y) && k < |X|
    ensures exists e :: (e in PeriodExamples(table, start, end, w)
      && AllFinite(e.window) && e.next == Num(y[k]) && X[k] == Reals(e.window))
  {
    var exs := PeriodExamples(table, start, end, w);
    FiniteRowsSound(WindowsOf(exs), LabelsOf(exs), k);
    var j :| 0 <= j < |exs| && AllFinite(WindowsOf(exs)[j]) && LabelsOf(exs)[j].Num?
      && X[k] == Reals(WindowsOf(exs)[j]) && y[k] == LabelsOf(exs)[j].x;
    assert exs[j] in exs;
  }

  /** Every example whose window and label are finite becomes a training row. */
  lemma TrainedRowComplete(table: seq<Observation>, start: Date, end: Date, w: nat, X: seq<seq<real>>, y: seq<real>, e: Example)
    requires FitOutcome(table, start, end, w) == Trained(X, y)
    requires e in PeriodExamples(table, start, end, w) && AllFinite(e.window) && e.next.Num?
    ensures exists k :: 0 <= k < |X| && X[k] == Reals(e.window) && y[k] == e.next.x
  {
    var exs := PeriodExamples(table, start, end, w);
    var j :| 0 <= j < |exs| && exs[j] == e;
    FiniteRowsComplete(WindowsOf(exs), LabelsOf(exs), j);
  }

  /** A training set has as many labels as feature rows, at least one row,
      and every row has `w` features. */
  lemma TrainedShape(table: seq<Observation>, start: Date, end: Date, w: nat, X: seq<seq<real>>, y: seq<real>)
    requires FitOutcome(table, start, end, w) == Trained(X, y)
    ensures |X| == |y| > 0
    ensures forall k :: 0 <= k < |X| ==> |X[k]| == w
  {
    var df := InPeriod(table, start, end);
    ExamplesHaveWidth(df, GroupKeys(df), w);
    forall k | 0 <= k < |X|
      ensures |X[k]| == w
    {
      TrainedRowSound(table, start, end, w, X, y, k);
    }
  }

  lemma {:induction false} ExamplesHaveWidth(df: seq<Observation>, keys: seq<ProductId>, w: nat)
    ensures forall j :: 0 <= j < |Examples(df, keys, w)| ==> |Examples(df, keys, w)[j].window| == w
  {
    if keys != [] {
      var n := |keys| - 1;
      ExamplesHaveWidth(df, keys[..n], w);
      ProductExamplesCount(SeriesOf(df, keys[n]), w);
      assert Examples(df, keys, w) == Examples(df, keys[..n], w) + ProductExamples(SeriesOf(df, keys[n]), w);
    }
  }

  /** With no product holding more than `w` observations in the period there
      is nothing to train on. */
  lemma ShortHistoriesGiveNothing(table: seq<Observation>, start: Date, end: Date, w: nat)
    requires forall p :: |RowsOf(InPeriod(table, start, end), p)| <= w
    ensures FitOutcome(table, start, end, w) == NotEnoughData
  {
    var df := InPeriod(table, start, end);
    NoLongSeriesNoExamples(df, GroupKeys(df), w);
  }

  lemma {:induction false} NoLongSeriesNoExamples(df: seq<Observation>, keys: seq<ProductId>, w: nat)
    requires forall p :: |RowsOf(df, p)| <= w
    ensures Examples(df, keys, w) == []
  {
    if keys != [] {
      var n := |keys| - 1;
      NoLongSeriesNoExamples(df, keys[..n], w);
      ProductExamplesCount(SeriesOf(df, keys[n]), w);
    }
  }

  /** An example of the period comes from the series of one of its products. */
  lemma ExamplesExact(df: seq<Observation>, keys: seq<ProductId>, w: nat, e: Example)
    ensures e in Examples(df, keys, w) <==> exists p :: p in keys && e in ProductExamples(SeriesOf(df, p), w)
  {
    GatherExact(ProductPart(df, w), keys, e);
  }

  /** The rows behind a product's series are exactly its rows of the table
      dated within the period. */
  lemma PeriodRowsExact(table: seq<Observation>, start: Date, end: Date, p: ProductId, o: Observation)
    ensures o in Chronological(RowsOf(InPeriod(table, start, end), p)) <==>
      o in table && o.product == p && start <= o.date <= end
  {
    var df := InPeriod(table, start, end);
    SameMembers(Chronological(RowsOf(df, p)), RowsOf(df, p), o);
    RowsOfExact(df, p, o);
    InPeriodExact(table, start, end, o);
  }
}
