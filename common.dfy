/** Shared vocabulary of the fund's engine: the rows of the Returns, Portfolios
    and Products tables, weight frames, numeric cells that may be non-finite,
    sums, a stable sort by a date key and the small string helpers the
    strategies use. */
module Common {

  datatype Option<T> = None | Some(value: T)

  /** Products are identified by their integer primary key. */
  type ProductId = int

  /** Dates are day numbers; consecutive days differ by one. */
  type Date = int

  /** A numeric cell as the engine reads it: a finite real, or one of the
      IEEE-754 special values. A non-numeric cell coerced by the reader is NaN. */
  datatype Value = Num(x: real) | NaN | PosInf | NegInf

  /** One row of the Returns table. */
  datatype Observation = Observation(product: ProductId, date: Date, value: Value)

  /** The three risk profiles: the `type` column of Portfolios, the columns of Deals. */
  datatype Profile = LowRisk | LowTurnover | HighYieldEquityOnly

  /** One line of a weight frame: a product and its weight. */
  datatype Holding = Holding(product: ProductId, weight: real)

  /** A weight frame: product index with a `weight` column, in row order. */
  type Frame = seq<Holding>

  /** No product appears on two lines of the frame, as a frame index requires. */
  predicate DistinctProducts(f: Frame)
  {
    forall i, j :: 0 <= i < j < |f| ==> f[i].product != f[j].product
  }

  /** One row of the Portfolios table; `produits` is None when the column is NULL. */
  datatype PortfolioRow = PortfolioRow(profile: Profile, created: Date, produits: Option<Frame>)

  // ---------------------------------------------------------------- sequence facts

  lemma DropLastOfConcat<T>(a: seq<T>, b: seq<T>)
    requires b != []
    ensures (a + b)[..|a + b| - 1] == a + b[..|b| - 1] && (a + b)[|a + b| - 1] == b[|b| - 1]
  {
  }

  lemma AppendAssoc<T>(a: seq<T>, b: seq<T>, c: seq<T>)
    ensures a + b + c == a + (b + c)
  {
  }

  lemma AppendCongruence<T>(a: seq<T>, a': seq<T>, b: seq<T>, b': seq<T>)
    requires a == a' && b == b'
    ensures a + b == a' + b'
  {
  }

  lemma SameMembers<T>(a: seq<T>, b: seq<T>, x: T)
    requires multiset(a) == multiset(b)
    ensures x in a <==> x in b
  {
    assert x in a <==> x in multiset(a);
    assert x in b <==> x in multiset(b);
  }

  // ---------------------------------------------------------------- sums

  function Sum(s: seq<real>): real
  {
    if s == [] then 0.0 else Sum(s[..|s| - 1]) + s[|s| - 1]
  }

  lemma {:induction false} SumConcat(a: seq<real>, b: seq<real>)
    ensures Sum(a + b) == Sum(a) + Sum(b)
  {
    if b != [] {
      assert (a + b)[..|a + b| - 1] == a + b[..|b| - 1];
      SumConcat(a, b[..|b| - 1]);
    } else {
      assert a + b == a;
    }
  }

  /** The `weight` column of a frame. */
  function Weights(f: Frame): seq<real>
  {
    seq(|f|, i requires 0 <= i < |f| => f[i].weight)
  }

  function WeightSum(f: Frame): real
  {
    Sum(Weights(f))
  }

  lemma WeightSumSnoc(f: Frame, h: Holding)
    ensures WeightSum(f + [h]) == WeightSum(f) + h.weight
  {
    assert Weights(f + [h])[..|f|] == Weights(f);
  }

  /** The weight of the first line holding `p`, if any. */
  function Lookup(f: Frame, p: ProductId): Option<real>
  {
    if f == [] then None
    else if f[0].product == p then Some(f[0].weight)
    else Lookup(f[1..], p)
  }

  /** The weight of `p`, or 0 when the frame does not hold it (pandas' fill_value=0). */
  function WeightOr0(f: Frame, p: ProductId): real
  {
    match Lookup(f, p)
    case Some(w) => w
    case None => 0.0
  }

  /** A frame pairing each product of `ids` with the weight at the same position. */
  function Zip(ids: seq<ProductId>, x: seq<real>): Frame
    requires |ids| == |x|
  {
    seq(|ids|, i requires 0 <= i < |ids| => Holding(ids[i], x[i]))
  }

  lemma ZipWeights(ids: seq<ProductId>, x: seq<real>)
    requires |ids| == |x|
    ensures Weights(Zip(ids, x)) == x && WeightSum(Zip(ids, x)) == Sum(x)
  {
  }

  // ---------------------------------------------------------------- stable sort by a key

  predicate SortedBy<T>(s: seq<T>, key: T -> int)
  {
    forall i, j :: 0 <= i < j < |s| ==> key(s[i]) <= key(s[j])
  }

  /** Inserts `x` after every element whose key is not greater than its own. */
  function InsertBy<T>(s: seq<T>, x: T, key: T -> int): (r: seq<T>)
    requires SortedBy(s, key)
    ensures |r| == |s| + 1 && multiset(r) == multiset(s) + multiset{x}
    ensures SortedBy(r, key)
    ensures r[0] == x || (s != [] && r[0] == s[0])
  {
    if s == [] then [x]
    else if key(s[0]) <= key(x) then
      var rest := InsertBy(s[1..], x, key);
      assert s == [s[0]] + s[1..];
      ConsSorted(s[0], rest, key);
      [s[0]] + rest
    else
      ConsSorted(x, s, key);
      [x] + s
  }

  lemma ConsSorted<T>(h: T, s: seq<T>, key: T -> int)
    requires SortedBy(s, key) && (s != [] ==> key(h) <= key(s[0]))
    ensures SortedBy([h] + s, key)
  {
    forall i, j | 0 <= i < j < |[h] + s|
      ensures key(([h] + s)[i]) <= key(([h] + s)[j])
    {
      if i > 0 {
        assert ([h] + s)[i] == s[i - 1];
      }
      assert ([h] + s)[j] == s[j - 1];
    }
  }

  /** Stable insertion sort: the library sort the engine applies to a date column. */
  function SortBy<T>(s: seq<T>, key: T -> int): (r: seq<T>)
    ensures |r| == |s| && multiset(r) == multiset(s)
    ensures SortedBy(r, key)
  {
    if s == [] then []
    else
      assert s == s[..|s| - 1] + [s[|s| - 1]];
      InsertBy(SortBy(s[..|s| - 1], key), s[|s| - 1], key)
  }

  // ---------------------------------------------------------------- grouping the Returns table

  function ObsDate(o: Observation): int { o.date }

  predicate StrictlyIncreasing(ks: seq<ProductId>)
  {
    forall i, j :: 0 <= i < j < |ks| ==> ks[i] < ks[j]
  }

  /** Inserts `p` into an increasing key list unless it is already there. */
  function InsertKey(ks: seq<ProductId>, p: ProductId): (r: seq<ProductId>)
    requires StrictlyIncreasing(ks)
    ensures StrictlyIncreasing(r)
    ensures forall q :: q in r <==> q in ks || q == p
    ensures r != [] && (r[0] == p || (ks != [] && r[0] == ks[0]))
  {
    if ks == [] then [p]
    else if p < ks[0] then
      ConsIncreasing(p, ks);
      [p] + ks
    else if p == ks[0] then ks
    else
      var rest := InsertKey(ks[1..], p);
      ConsIncreasing(ks[0], rest);
      [ks[0]] + rest
  }

  lemma ConsIncreasing(h: ProductId, ks: seq<ProductId>)
    requires StrictlyIncreasing(ks) && (ks != [] ==> h < ks[0])
    ensures StrictlyIncreasing([h] + ks)
  {
    forall i, j | 0 <= i < j < |[h] + ks|
      ensures ([h] + ks)[i] < ([h] + ks)[j]
    {
      if i > 0 {
        assert ([h] + ks)[i] == ks[i - 1];
      }
      assert ([h] + ks)[j] == ks[j - 1];
    }
  }

  /** The distinct products of a table in increasing order: the groups of a
      group-by on product_id, in the order the loop visits them. */
  function GroupKeys(table: seq<Observation>): (ks: seq<ProductId>)
    ensures StrictlyIncreasing(ks)
  {
    if table == [] then [] else InsertKey(GroupKeys(table[..|table| - 1]), table[|table| - 1].product)
  }

  lemma {:induction false} GroupKeysExact(table: seq<Observation>, p: ProductId)
    ensures p in GroupKeys(table) <==> exists i :: 0 <= i < |table| && table[i].product == p
  {
    if table != [] {
      var n := |table| - 1;
      GroupKeysExact(table[..n], p);
      assert forall i :: 0 <= i < n ==> table[..n][i] == table[i];
      if p in GroupKeys(table[..n]) {
        var i :| 0 <= i < n && table[..n][i].product == p;
        assert table[i].product == p;
      }
    }
  }

  /** The group of one product: its rows, in table order. */
  function RowsOf(table: seq<Observation>, p: ProductId): seq<Observation>
  {
    if table == [] then []
    else RowsOf(table[..|table| - 1], p) + (if table[|table| - 1].product == p then [table[|table| - 1]] else [])
  }

  lemma {:induction false} RowsOfExact(table: seq<Observation>, p: ProductId, o: Observation)
    ensures o in RowsOf(table, p) <==> o in table && o.product == p
  {
    if table != [] {
      var n := |table| - 1;
      RowsOfExact(table[..n], p, o);
      assert table == table[..n] + [table[n]];
    }
  }

  /** The rows of a group sorted by date. The library sort used by the engine is
      not stable; this model keeps rows of equal date in table order. */
  function Chronological(rows: seq<Observation>): (s: seq<Observation>)
    ensures |s| == |rows| && multiset(s) == multiset(rows)
    ensures SortedBy(s, ObsDate)
  {
    SortBy(rows, ObsDate)
  }

  /** The `value` column. */
  function ValuesOf(rows: seq<Observation>): seq<Value>
  {
    seq(|rows|, i requires 0 <= i < |rows| => rows[i].value)
  }

  // ---------------------------------------------------------------- strings

  /** ASCII lower-casing of one character. */
  function LowerChar(c: char): char
  {
    if 'A' <= c <= 'Z' then (c as int + 32) as char else c
  }

  function Lower(s: string): string
  {
    seq(|s|, i requires 0 <= i < |s| => LowerChar(s[i]))
  }

  /** A lower-cased string holds no upper-case ASCII letter, and lower-casing it
      again changes nothing. */
  lemma LowerIsLowerCase(s: string)
    ensures forall i :: 0 <= i < |Lower(s)| ==> !('A' <= Lower(s)[i] <= 'Z')
    ensures Lower(Lower(s)) == Lower(s)
  {
    forall i | 0 <= i < |s|
      ensures !('A' <= Lower(s)[i] <= 'Z') && LowerChar(Lower(s)[i]) == Lower(s)[i]
    {
      assert Lower(s)[i] == LowerChar(s[i]);
    }
  }

  /** `t` occurs in `s` starting at position `i`. */
  predicate OccursAt(s: string, t: string, i: int)
  {
    0 <= i && i + |t| <= |s| && s[i..i + |t|] == t
  }

  /** Python's `t in s` for strings: `t` occurs in `s` at some position. */
  ghost predicate ContainsSub(s: string, t: string)
  {
    exists i :: OccursAt(s, t, i)
  }

  /** A scan for the first position at which `t` occurs in `s`. */
  function FindSub(s: string, t: string): (r: bool)
    ensures r <==> ContainsSub(s, t)
    decreases |s|
  {
    if |t| > |s| then false
    else if s[..|t|] == t then assert OccursAt(s, t, 0); true
    else
      var r := FindSub(s[1..], t);
      assert r ==> ContainsSub(s, t) by {
        if r {
          var i :| OccursAt(s[1..], t, i);
          assert s[1..][i..i + |t|] == s[i + 1..i + 1 + |t|];
          assert OccursAt(s, t, i + 1);
        }
      }
      assert ContainsSub(s, t) ==> r by {
        if ContainsSub(s, t) {
          var i :| OccursAt(s, t, i);
          assert i != 0;
          assert OccursAt(s[1..], t, i - 1);
        }
      }
      r
  }
}
