/** The two tables the engine writes: the append-only Portfolios log of weight
    snapshots and the Deals table, which records per rebalancing date and per
    risk profile the trade that moves the latest snapshot to the new weights. */
module Ledger {
  import opened Common

  // ------------------------------------------------------------ trades

  /** new − old for every product of either frame, a missing side counting as 0:
      first the products of `newF` in their order, then those only `oldF` holds. */
  function Diff(newF: Frame, oldF: Frame): (d: Frame)
  {
    NewSide(newF, oldF) + OldOnly(oldF, newF)
  }

  /** Each line of `newF` minus the old weight of its product. */
  function NewSide(newF: Frame, oldF: Frame): Frame
  {
    seq(|newF|, i requires 0 <= i < |newF| => Holding(newF[i].product, newF[i].weight - WeightOr0(oldF, newF[i].product)))
  }

  /** The lines of `oldF` whose product `newF` does not hold, negated. */
  function OldOnly(oldF: Frame, newF: Frame): Frame
  {
    if oldF == [] then []
    else
      var h := oldF[0];
      (if Lookup(newF, h.product).None? then [Holding(h.product, -h.weight)] else []) + OldOnly(oldF[1..], newF)
  }

  /** A product is held by the frame exactly when Lookup finds it. */
  lemma {:induction false} LookupHeld(f: Frame, p: ProductId)
    ensures Lookup(f, p).Some? <==> exists i :: 0 <= i < |f| && f[i].product == p
  {
    if f != [] {
      LookupHeld(f[1..], p);
      if f[0].product != p {
        assert forall i :: 1 <= i < |f| ==> f[i] == f[1..][i - 1];
        if exists i :: 0 <= i < |f| && f[i].product == p {
          var i :| 0 <= i < |f| && f[i].product == p;
          assert f[1..][i - 1].product == p;
        }
      }
    }
  }

  lemma {:induction false} LookupConcat(a: Frame, b: Frame, p: ProductId)
    ensures Lookup(a + b, p) == if Lookup(a, p).Some? then Lookup(a, p) else Lookup(b, p)
  {
    if a != [] {
      assert (a + b)[1..] == a[1..] + b;
      LookupConcat(a[1..], b, p);
    } else {
      assert a + b == b;
    }
  }

  /** The new side answers for exactly the products of `newF`, with new − old. */
  lemma {:induction false} NewSideLookup(newF: Frame, oldF: Frame, p: ProductId)
    ensures Lookup(NewSide(newF, oldF), p)
         == if Lookup(newF, p).Some? then Some(Lookup(newF, p).value - WeightOr0(oldF, p)) else None
  {
    if newF != [] {
      NewSideLookup(newF[1..], oldF, p);
      assert NewSide(newF, oldF)[1..] == NewSide(newF[1..], oldF);
    }
  }

  /** The old-only side answers for the products `oldF` holds and `newF` does not, negated. */
  lemma {:induction false} OldOnlyLookup(oldF: Frame, newF: Frame, p: ProductId)
    ensures Lookup(OldOnly(oldF, newF), p)
         == if Lookup(newF, p).None? && Lookup(oldF, p).Some? then Some(-Lookup(oldF, p).value) else None
  {
    if oldF != [] {
      var h := oldF[0];
      var head := if Lookup(newF, h.product).None? then [Holding(h.product, -h.weight)] else [];
      OldOnlyLookup(oldF[1..], newF, p);
      LookupConcat(head, OldOnly(oldF[1..], newF), p);
    }
  }

  /** The trade of a product is its new weight minus its old one, each 0 when
      missing; it is listed exactly when either side holds the product. */
  lemma DiffLookup(newF: Frame, oldF: Frame, p: ProductId)
    ensures Lookup(Diff(newF, oldF), p).Some? <==> Lookup(newF, p).Some? || Lookup(oldF, p).Some?
    ensures WeightOr0(Diff(newF, oldF), p) == WeightOr0(newF, p) - WeightOr0(oldF, p)
  {
    NewSideLookup(newF, oldF, p);
    OldOnlyLookup(oldF, newF, p);
    LookupConcat(NewSide(newF, oldF), OldOnly(oldF, newF), p);
  }

  /** subtract aligns the two frames on the union of their products: the
      trade lists a product exactly when the new or the old frame holds it. */
  lemma DiffProducts(newF: Frame, oldF: Frame, p: ProductId)
    ensures (exists i :: 0 <= i < |Diff(newF, oldF)| && Diff(newF, oldF)[i].product == p) <==>
      (exists i :: 0 <= i < |newF| && newF[i].product == p) || (exists i :: 0 <= i < |oldF| && oldF[i].product == p)
  {
    DiffLookup(newF, oldF, p);
    LookupHeld(Diff(newF, oldF), p);
    LookupHeld(newF, p);
    LookupHeld(oldF, p);
  }

  /** Applying the trade to the old weights gives the new weights, product by product. */
  lemma DiffRoundTrip(newF: Frame, oldF: Frame, p: ProductId)
    ensures WeightOr0(oldF, p) + WeightOr0(Diff(newF, oldF), p) == WeightOr0(newF, p)
  {
    DiffLookup(newF, oldF, p);
  }

  /** Trading from A to B is the opposite of trading from B to A, product by product. */
  lemma DiffAntisymmetric(a: Frame, b: Frame, p: ProductId)
    ensures Lookup(Diff(a, b), p).Some? <==> Lookup(Diff(b, a), p).Some?
    ensures WeightOr0(Diff(a, b), p) == -WeightOr0(Diff(b, a), p)
  {
    DiffLookup(a, b, p);
    DiffLookup(b, a, p);
  }

  /** Re-submitting the latest weights trades nothing. */
  lemma DiffOfSameIsZero(w: Frame, p: ProductId)
    ensures WeightOr0(Diff(w, w), p) == 0.0
  {
    DiffLookup(w, w, p);
  }

  /** Without an old snapshot the trade is the new weights themselves. */
  lemma DiffFromNothing(newF: Frame, p: ProductId)
    ensures Lookup(Diff(newF, []), p) == Lookup(newF, p)
  {
    NewSideLookup(newF, [], p);
    OldOnlyLookup([], newF, p);
    LookupConcat(NewSide(newF, []), OldOnly([], newF), p);
  }

  // ------------------------------------------------------------ the Deals table

  /** One row of Deals: a date and one nullable trade per profile. Rows are
      identified by an autoincrement key, so two rows may carry the same date. */
  datatype DealRow = DealRow(date: Date, lowRisk: Option<Frame>, lowTurnover: Option<Frame>, highYield: Option<Frame>)

  function Cell(r: DealRow, profile: Profile): Option<Frame>
  {
    match profile
    case LowRisk => r.lowRisk
    case LowTurnover => r.lowTurnover
    case HighYieldEquityOnly => r.highYield
  }

  /** The row with one profile's column overwritten. */
  function WithCell(r: DealRow, profile: Profile, c: Option<Frame>): (s: DealRow)
    ensures s.date == r.date && Cell(s, profile) == c
    ensures forall q :: q != profile ==> Cell(s, q) == Cell(r, q)
  {
    match profile
    case LowRisk => r.(lowRisk := c)
    case LowTurnover => r.(lowTurnover := c)
    case HighYieldEquityOnly => r.(highYield := c)
  }

  predicate HasDate(deals: seq<DealRow>, date: Date)
  {
    exists i :: 0 <= i < |deals| && deals[i].date == date
  }

  /** UPDATE … SET <profile> = c WHERE date = d: every row of that date. */
  function SetWhere(deals: seq<DealRow>, date: Date, profile: Profile, c: Option<Frame>): seq<DealRow>
  {
    seq(|deals|, i requires 0 <= i < |deals| => if deals[i].date == date then WithCell(deals[i], profile, c) else deals[i])
  }

  /** INSERT INTO Deals (date, <profile>) VALUES (d, c): the other columns NULL. */
  function NewDealRow(date: Date, profile: Profile, c: Option<Frame>): DealRow
  {
    WithCell(DealRow(date, None, None, None), profile, c)
  }

  /** The Deals table after recording `c` for (date, profile). */
  function Upsert(deals: seq<DealRow>, date: Date, profile: Profile, c: Option<Frame>): seq<DealRow>
  {
    if HasDate(deals, date) then SetWhere(deals, date, profile, c)
    else deals + [NewDealRow(date, profile, c)]
  }

  /** After an upsert the date has a row, and every row of that date holds `c` in the profile's column. */
  lemma UpsertRecords(deals: seq<DealRow>, date: Date, profile: Profile, c: Option<Frame>)
    ensures HasDate(Upsert(deals, date, profile, c), date)
    ensures forall i :: 0 <= i < |Upsert(deals, date, profile, c)| && Upsert(deals, date, profile, c)[i].date == date ==>
              Cell(Upsert(deals, date, profile, c)[i], profile) == c
  {
    var r := Upsert(deals, date, profile, c);
    if HasDate(deals, date) {
      var i :| 0 <= i < |deals| && deals[i].date == date;
      assert r[i].date == date;
    } else {
      assert r[|deals|].date == date;
    }
  }

  /** An upsert changes no existing row of another date, and no other profile's
      column of any existing row; it adds a row only when the date had none, and
      that row has every other column NULL. */
  lemma UpsertKeepsOthers(deals: seq<DealRow>, date: Date, profile: Profile, c: Option<Frame>)
    ensures var r := Upsert(deals, date, profile, c);
      |r| == (if HasDate(deals, date) then |deals| else |deals| + 1)
      && (forall i :: 0 <= i < |deals| && deals[i].date != date ==> r[i] == deals[i])
      && (forall i, q :: 0 <= i < |deals| && q != profile ==> r[i].date == deals[i].date && Cell(r[i], q) == Cell(deals[i], q))
      && (!HasDate(deals, date) ==> forall q :: q != profile ==> Cell(r[|deals|], q).None?)
  {
  }

  /** Recording the same trade twice is the same as recording it once. */
  lemma UpsertIdempotent(deals: seq<DealRow>, date: Date, profile: Profile, c: Option<Frame>)
    ensures Upsert(Upsert(deals, date, profile, c), date, profile, c) == Upsert(deals, date, profile, c)
  {
    var r := Upsert(deals, date, profile, c);
    UpsertRecords(deals, date, profile, c);
    var r2 := Upsert(r, date, profile, c);
    assert r2 == SetWhere(r, date, profile, c);
    forall i | 0 <= i < |r|
      ensures r2[i] == r[i]
    {
      if r[i].date == date {
        var s := WithCell(r[i], profile, c);
        assert Cell(s, LowRisk) == Cell(r[i], LowRisk);
        assert Cell(s, LowTurnover) == Cell(r[i], LowTurnover);
        assert Cell(s, HighYieldEquityOnly) == Cell(r[i], HighYieldEquityOnly);
      }
    }
  }

  // ------------------------------------------------------------ one deal

  /** The weights handed to update_deals: a table that may lack the `weight` column. */
  datatype WeightTable = WeightTable(hasWeightColumn: bool, rows: Frame)

  /** The snapshot update_deals reads: the profile's row with the greatest
      creation date, whichever of several such rows the store returns. */
  ghost predicate IsLatest(rows: seq<PortfolioRow>, profile: Profile, found: Option<nat>)
  {
    match found
    case None => forall i :: 0 <= i < |rows| ==> rows[i].profile != profile
    case Some(k) =>
      k < |rows| && rows[k].profile == profile
      && forall i :: 0 <= i < |rows| && rows[i].profile == profile ==> rows[i].created <= rows[k].created
  }

  /** The old side of the trade: empty without a snapshot or when its `produits` is NULL. */
  function OldWeights(rows: seq<PortfolioRow>, found: Option<nat>): Frame
  {
    match found
    case None => []
    case Some(k) => if k < |rows| && rows[k].produits.Some? then rows[k].produits.value else []
  }

  /** The value written to the profile's column: NULL (no trade) without new
      weights, otherwise the trade from the old weights. */
  function DealCell(input: Option<WeightTable>, oldF: Frame): (c: Option<Frame>)
    ensures c.None? <==> input.None?
    ensures c.Some? ==> forall p :: WeightOr0(oldF, p) + WeightOr0(c.value, p) == WeightOr0(input.value.rows, p)
  {
    match input
    case None => None
    case Some(t) =>
      forall p ensures WeightOr0(oldF, p) + WeightOr0(Diff(t.rows, oldF), p) == WeightOr0(t.rows, p) {
        DiffRoundTrip(t.rows, oldF, p);
      }
      Some(Diff(t.rows, oldF))
  }

  lemma {:induction false} OldOnlyOfNothing(oldF: Frame)
    ensures |OldOnly(oldF, [])| == |oldF|
  {
    if oldF != [] {
      OldOnlyOfNothing(oldF[1..]);
    }
  }

  /** The stored trade is the empty object `{}` exactly when neither the new
      nor the old frame holds a product, and it is never the NULL no-trade marker. */
  lemma EmptyTrade(t: WeightTable, oldF: Frame)
    ensures DealCell(Some(t), oldF) == Some([]) <==> t.rows == [] && oldF == []
    ensures DealCell(Some(t), oldF) != DealCell(None, oldF)
  {
    if t.rows == [] {
      OldOnlyOfNothing(oldF);
      assert Diff(t.rows, oldF) == OldOnly(oldF, []);
    }
  }

  // ------------------------------------------------------------ the ledger

  class Ledger {
    var portfolios: seq<PortfolioRow>
    var deals: seq<DealRow>

    constructor (portfolios: seq<PortfolioRow>, deals: seq<DealRow>)
      ensures this.portfolios == portfolios && this.deals == deals
    {
      this.portfolios := portfolios;
      this.deals := deals;
    }

    /** update_portfolio: appends one snapshot and changes nothing else. The
        frame is serialised by product, which fails on a repeated product. */
    method UpdatePortfolio(date: Date, profile: Profile, weights: Frame)
      requires DistinctProducts(weights)
      modifies this
      ensures portfolios == old(portfolios) + [PortfolioRow(profile, date, Some(weights))]
      ensures deals == old(deals)
    {
      portfolios := portfolios + [PortfolioRow(profile, date, Some(weights))];
    }

    /** SELECT … WHERE type = profile ORDER BY date_creation DESC LIMIT 1. */
    method LatestSnapshot(profile: Profile) returns (found: Option<nat>)
      ensures IsLatest(portfolios, profile, found)
    {
      found := None;
      var i := 0;
      while i < |portfolios|
        invariant 0 <= i <= |portfolios|
        invariant IsLatest(portfolios[..i], profile, found)
      {
        var row := portfolios[i];
        if row.profile == profile && (found.None? || portfolios[found.value].created < row.created) {
          found := Some(i);
        }
        i := i + 1;
      }
      assert portfolios[..i] == portfolios;
    }

    /** update_deals: reads the latest snapshot of the profile, then writes the
        trade (or the no-trade marker) into that profile's column of the date's
        row; new weights without a `weight` column leave Deals untouched, and
        new weights that repeat a product cannot be serialised by product, so
        the call raises and writes nothing. */
    method UpdateDeals(date: Date, profile: Profile, input: Option<WeightTable>) returns (raised: bool, ghost latest: Option<nat>)
      modifies this
      ensures raised <==> input.Some? && input.value.hasWeightColumn && !DistinctProducts(input.value.rows)
      ensures portfolios == old(portfolios)
      ensures IsLatest(portfolios, profile, latest)
      ensures raised || (input.Some? && !input.value.hasWeightColumn) ==> deals == old(deals)
      ensures !raised && (input.None? || input.value.hasWeightColumn) ==>
                deals == Upsert(old(deals), date, profile, DealCell(input, OldWeights(portfolios, latest)))
    {
      raised := false;
      var found := LatestSnapshot(profile);
      latest := found;
      var oldF := OldWeights(portfolios, found);
      var diff: Option<Frame>;
      if input.None? {
        diff := None;
      } else {
        if !input.value.hasWeightColumn {
          return;
        }
        if !DistinctProducts(input.value.rows) {
          raised := true;
          return;
        }
        diff := Some(Diff(input.value.rows, oldF));
      }
      if HasDate(deals, date) {
        deals := SetWhere(deals, date, profile, diff);
      } else {
        deals := deals + [NewDealRow(date, profile, diff)];
      }
    }
  }
}
