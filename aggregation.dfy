/** The dashboard's summary figures: best-selling and most profitable product, and average ticket. */
module Aggregation {
  import opened Wrappers
  import opened Seqs
  import opened Text
  import opened Table

  /** The sums one product group carries. */
  datatype Totals = Totals(quantity: real, sales: real)

  /** The (product, quantity, total sales) triple both "best product" functions return. */
  datatype ProductSummary = ProductSummary(product: string, quantity: real, sales: real)

  /** The product column. */
  function Products(rows: seq<Row>): seq<string> {
    seq(|rows|, i requires 0 <= i < |rows| => rows[i].product)
  }

  /** Summed quantity over the rows of product `p`. */
  function QuantityOf(rows: seq<Row>, p: string): real {
    if rows == [] then 0.0
    else QuantityOf(rows[..|rows| - 1], p) + (if rows[|rows| - 1].product == p then rows[|rows| - 1].quantity else 0.0)
  }

  /** Summed total sales over the rows of product `p`. */
  function SalesOf(rows: seq<Row>, p: string): real {
    if rows == [] then 0.0
    else SalesOf(rows[..|rows| - 1], p) + (if rows[|rows| - 1].product == p then rows[|rows| - 1].total else 0.0)
  }

  /** groupby("Produto") with both numeric columns summed, built one row at a time. */
  function GroupTotals(rows: seq<Row>): map<string, Totals> {
    if rows == [] then map[]
    else
      var groups := GroupTotals(rows[..|rows| - 1]);
      var last := rows[|rows| - 1];
      var before := if last.product in groups then groups[last.product] else Totals(0.0, 0.0);
      groups[last.product := Totals(before.quantity + last.quantity, before.sales + last.total)]
  }

  /** The groups are the products, and each holds its product's sums. */
  lemma {:induction false} GroupTotalsCorrect(rows: seq<Row>)
    ensures forall p :: p in GroupTotals(rows) <==> p in Products(rows)
    ensures forall p :: p in GroupTotals(rows) ==> GroupTotals(rows)[p] == Totals(QuantityOf(rows, p), SalesOf(rows, p))
  {
    if rows != [] {
      var init := rows[..|rows| - 1];
      GroupTotalsCorrect(init);
      assert Products(rows) == Products(init) + [rows[|rows| - 1].product];
      forall p | p !in GroupTotals(init) ensures QuantityOf(init, p) == 0.0 && SalesOf(init, p) == 0.0 {
        AbsentSumsZero(init, p);
      }
    }
  }

  /** A product with no rows sums to zero. */
  lemma {:induction false} AbsentSumsZero(rows: seq<Row>, p: string)
    requires p !in Products(rows)
    ensures QuantityOf(rows, p) == 0.0 && SalesOf(rows, p) == 0.0
  {
    if rows != [] {
      var init := rows[..|rows| - 1];
      assert Products(rows) == Products(init) + [rows[|rows| - 1].product];
      AbsentSumsZero(init, p);
    }
  }

  /** Key `a` ranks at least as high as key `b`: a larger score, or an equal score and a key that
      sorts no later. */
  predicate Ranks(score: map<string, real>, a: string, b: string)
    requires a in score && b in score
  {
    score[a] > score[b] || (score[a] == score[b] && StrLe(a, b))
  }

  /** idxmax over the group index, which groupby sorts by key: the key with the largest score,
      and among equal scores the key that sorts first. The keys are scanned in whatever order
      `keys` has. `Ranks` is a total order on distinct keys, so the result is the same for every
      order, including the sorted one. None stands for the ValueError on an empty index. */
  function IdxMax(keys: seq<string>, score: map<string, real>): (r: Option<string>)
    requires forall k :: k in keys ==> k in score
    ensures r.None? <==> keys == []
    ensures r.Some? ==> r.value in keys
  {
    if keys == [] then None
    else
      match IdxMax(keys[1..], score)
      case None => Some(keys[0])
      case Some(best) => if Ranks(score, keys[0], best) then Some(keys[0]) else Some(best)
  }

  /** The key idxmax picks ranks at least as high as every key. */
  lemma {:induction false} IdxMaxRanksFirst(keys: seq<string>, score: map<string, real>)
    requires forall k :: k in keys ==> k in score
    requires keys != []
    ensures forall k :: k in keys ==> Ranks(score, IdxMax(keys, score).value, k)
  {
    var r := IdxMax(keys, score).value;
    if keys[1..] == [] {
      assert keys == [keys[0]];
      StrLeTotal(r, r);
    } else {
      var best := IdxMax(keys[1..], score).value;
      IdxMaxRanksFirst(keys[1..], score);
      forall k | k in keys ensures Ranks(score, r, k) {
        if k == keys[0] {
          StrLeTotal(keys[0], best);
          StrLeTotal(k, k);
        } else {
          assert k in keys[1..];
          if r != best {
            // keys[0] beat `best`, which ranks at least as high as `k`
            if score[r] == score[best] && score[best] == score[k] {
              StrLeTransitive(r, best, k);
            }
          }
        }
      }
    }
  }

  /** The group keys: the distinct products, listed in order of first appearance, not in the
      sorted order of the groupby index. `IdxMax` gives the same answer in either order. */
  function GroupKeys(rows: seq<Row>): (keys: seq<string>)
    ensures forall p :: p in keys <==> p in Products(rows)
  {
    DropDuplicatesSpec(Products(rows));
    DropDuplicates(Products(rows))
  }

  /** The product whose key wins for `score`, with that product's two sums. */
  ghost predicate IsBest(rows: seq<Row>, score: string -> real, p: string) {
    && p in Products(rows)
    && forall q :: q in Products(rows) ==> score(q) < score(p) || (score(q) == score(p) && StrLe(p, q))
  }

  /** get_best_selling_product: the product with the largest summed quantity (the first in key
      order among ties), its summed quantity and its summed sales; None on an empty table. */
  function BestSellingProduct(rows: seq<Row>): (r: Option<ProductSummary>)
    ensures r.None? <==> rows == []
    ensures r.Some? ==> IsBest(rows, p => QuantityOf(rows, p), r.value.product)
    ensures r.Some? ==>
      r.value.quantity == QuantityOf(rows, r.value.product) && r.value.sales == SalesOf(rows, r.value.product)
  {
    var groups := GroupTotals(rows);
    GroupTotalsCorrect(rows);
    var keys := GroupKeys(rows);
    var score := map p | p in groups :: groups[p].quantity;
    match IdxMax(keys, score)
    case None => None
    case Some(best) =>
      IdxMaxRanksFirst(keys, score);
      Some(ProductSummary(best, groups[best].quantity, groups[best].sales))
  }

  /** get_best_profitable_product: the product with the largest summed sales (the first in key
      order among ties), its summed quantity, recomputed over its rows, and that largest sum;
      None on an empty table. */
  function BestProfitableProduct(rows: seq<Row>): (r: Option<ProductSummary>)
    ensures r.None? <==> rows == []
    ensures r.Some? ==> IsBest(rows, p => SalesOf(rows, p), r.value.product)
    ensures r.Some? ==>
      r.value.quantity == QuantityOf(rows, r.value.product) && r.value.sales == SalesOf(rows, r.value.product)
  {
    var groups := GroupTotals(rows);
    GroupTotalsCorrect(rows);
    var keys := GroupKeys(rows);
    var sales := map p | p in groups :: groups[p].sales;
    match IdxMax(keys, sales)
    case None => None
    case Some(best) =>
      IdxMaxRanksFirst(keys, sales);
      Some(ProductSummary(best, QuantityOf(rows, best), sales[best]))
  }

  /** The winner is pinned down: only one product can satisfy the ranking. */
  lemma BestIsUnique(rows: seq<Row>, score: string -> real, p: string, q: string)
    requires IsBest(rows, score, p) && IsBest(rows, score, q)
    ensures p == q
  {
    StrLeAntisymmetric(p, q);
  }

  /** Sum of the total sales column. */
  function TotalSales(rows: seq<Row>): real {
    if rows == [] then 0.0 else TotalSales(rows[..|rows| - 1]) + rows[|rows| - 1].total
  }

  /** get_avarage_ticket: total sales over the number of rows. On an empty table the source divides
      a NumPy zero by zero and gets NaN, which is None here. */
  function AverageTicket(rows: seq<Row>): (r: Option<real>)
    ensures r.None? <==> rows == []
    ensures r.Some? ==> r.value * (|rows| as real) == TotalSales(rows)
  {
    if rows == [] then None else Some(TotalSales(rows) / (|rows| as real))
  }

  /** The summed totals lie between |rows| times any lower and upper bound of the totals. */
  lemma {:induction false} TotalSalesBounds(rows: seq<Row>, lo: real, hi: real)
    requires forall x :: x in rows ==> lo <= x.total <= hi
    ensures (|rows| as real) * lo <= TotalSales(rows) <= (|rows| as real) * hi
  {
    if rows != [] {
      var init := rows[..|rows| - 1];
      assert rows[|rows| - 1] in rows;
      TotalSalesBounds(init, lo, hi);
    }
  }

  /** The average ticket lies between the smallest and the largest total. */
  lemma AverageTicketBounds(rows: seq<Row>, lo: real, hi: real)
    requires rows != []
    requires forall x :: x in rows ==> lo <= x.total <= hi
    ensures lo <= AverageTicket(rows).value <= hi
  {
    TotalSalesBounds(rows, lo, hi);
  }
}
