/** Stock items, their derived stock status, and the two derivations made over the
    whole, unfiltered product list: the summary metrics and the category options. */
module Products {

  /** One stock item. Identifiers and timestamps are opaque strings here; price and
      quantity are whole numbers. */
  datatype Product = Product(
    id: string,
    sku: string,
    name: string,
    category: string,
    price: int,
    quantity: int,
    minStock: int,
    location: string,
    updatedAt: string)

  const OutOfStock: string := "Agotado"
  const LowStock: string := "Bajo"
  const InStock: string := "OK"

  /** The stock status tag: out of stock at or below zero, low at or below the
      minimum, otherwise fine. Exactly one of the three labels applies. */
  function StatusOf(p: Product): (r: string)
    ensures r == OutOfStock <==> p.quantity <= 0
    ensures r == LowStock <==> 0 < p.quantity <= p.minStock
    ensures r == InStock <==> 0 < p.quantity && p.minStock < p.quantity
  {
    if p.quantity <= 0 then OutOfStock
    else if p.quantity <= p.minStock then LowStock
    else InStock
  }

  // ---------------------------------------------------------------------------
  // Summary metrics

  datatype Metrics = Metrics(low: nat, out: nat, total: nat, value: int)

  /** Number of products with stock above zero but not above their minimum. */
  function CountLow(ps: seq<Product>): (r: nat)
    ensures r <= |ps|
  {
    if ps == [] then 0
    else
      var p := ps[|ps| - 1];
      CountLow(ps[..|ps| - 1]) + (if p.quantity > 0 && p.quantity <= p.minStock then 1 else 0)
  }

  /** Number of products with stock at or below zero. */
  function CountOut(ps: seq<Product>): (r: nat)
    ensures r <= |ps|
  {
    if ps == [] then 0
    else CountOut(ps[..|ps| - 1]) + (if ps[|ps| - 1].quantity <= 0 then 1 else 0)
  }

  /** The running sum of price times quantity, accumulated left to right from 0. */
  function StockValue(ps: seq<Product>): (r: int)
    ensures (forall i :: 0 <= i < |ps| ==> ps[i].price >= 0 && ps[i].quantity >= 0) ==> r >= 0
  {
    if ps == [] then 0
    else StockValue(ps[..|ps| - 1]) + ps[|ps| - 1].price * ps[|ps| - 1].quantity
  }

  /** The four summary figures over the unfiltered list. */
  function MetricsOf(ps: seq<Product>): (m: Metrics)
    ensures m.total == |ps|
    ensures ps == [] ==> m == Metrics(0, 0, 0, 0)
  {
    Metrics(CountLow(ps), CountOut(ps), |ps|, StockValue(ps))
  }

  /** The positions of ps whose status is the given tag: an independent way to count. */
  function WithStatus(ps: seq<Product>, tag: string): set<nat> {
    set i: nat | i < |ps| && StatusOf(ps[i]) == tag
  }

  lemma WithStatusSnoc(ps: seq<Product>, p: Product, tag: string)
    ensures WithStatus(ps + [p], tag)
         == WithStatus(ps, tag) + (if StatusOf(p) == tag then {|ps|} else {})
  {
    var qs := ps + [p];
    assert forall i :: 0 <= i < |ps| ==> qs[i] == ps[i];
  }

  lemma WithStatusSnocCount(ps: seq<Product>, p: Product, tag: string)
    ensures |WithStatus(ps + [p], tag)| == |WithStatus(ps, tag)| + (if StatusOf(p) == tag then 1 else 0)
  {
    WithStatusSnoc(ps, p, tag);
    assert |ps| !in WithStatus(ps, tag);
  }

  /** The low count is the number of products whose status is "Bajo", and the out
      count the number whose status is "Agotado". */
  lemma {:induction false} MetricsCountStatuses(ps: seq<Product>)
    ensures MetricsOf(ps).low == |WithStatus(ps, LowStock)|
    ensures MetricsOf(ps).out == |WithStatus(ps, OutOfStock)|
  {
    if ps != [] {
      var init, last := ps[..|ps| - 1], ps[|ps| - 1];
      assert ps == init + [last];
      MetricsCountStatuses(init);
      WithStatusSnocCount(init, last, LowStock);
      WithStatusSnocCount(init, last, OutOfStock);
    }
  }

  /** The three statuses partition the products, so low + out never exceeds the total. */
  lemma {:induction false} StatusesPartition(ps: seq<Product>)
    ensures |WithStatus(ps, LowStock)| + |WithStatus(ps, OutOfStock)| + |WithStatus(ps, InStock)| == |ps|
    ensures MetricsOf(ps).low + MetricsOf(ps).out <= MetricsOf(ps).total
  {
    if ps != [] {
      var init, last := ps[..|ps| - 1], ps[|ps| - 1];
      assert ps == init + [last];
      StatusesPartition(init);
      WithStatusSnocCount(init, last, LowStock);
      WithStatusSnocCount(init, last, OutOfStock);
      WithStatusSnocCount(init, last, InStock);
    }
    MetricsCountStatuses(ps);
  }

  /** The stock value adds up over any split of the list: every row contributes its
      own price times quantity, zero and negative quantities included. */
  lemma {:induction false} StockValueSplit(xs: seq<Product>, ys: seq<Product>)
    ensures StockValue(xs + ys) == StockValue(xs) + StockValue(ys)
    decreases |ys|
  {
    if ys != [] {
      var init := ys[..|ys| - 1];
      assert (xs + ys)[..|xs + ys| - 1] == xs + init;
      StockValueSplit(xs, init);
    } else {
      assert xs + ys == xs;
    }
  }

  // ---------------------------------------------------------------------------
  // Category options

  const AllCategories: string := "Todas"

  /** The category of every product, in list order. */
  function CategoriesOf(ps: seq<Product>): (r: seq<string>)
    ensures |r| == |ps| && forall i :: 0 <= i < |ps| ==> r[i] == ps[i].category
  {
    if ps == [] then [] else CategoriesOf(ps[..|ps| - 1]) + [ps[|ps| - 1].category]
  }

  /** The values of xs in insertion order of a set built by adding them one by one:
      each value once, and nothing that is not in xs. */
  function Distinct(xs: seq<string>): (r: seq<string>)
    ensures forall x :: x in r <==> x in xs
    ensures forall i, j :: 0 <= i < j < |r| ==> r[i] != r[j]
  {
    if xs == [] then []
    else
      var d := Distinct(xs[..|xs| - 1]);
      assert xs == xs[..|xs| - 1] + [xs[|xs| - 1]];
      if xs[|xs| - 1] in d then d else d + [xs[|xs| - 1]]
  }

  /** The index where x first occurs in xs. */
  function FirstIndex(xs: seq<string>, x: string): (k: nat)
    requires x in xs
    ensures k < |xs| && xs[k] == x && x !in xs[..k]
  {
    if xs[0] == x then 0 else 1 + FirstIndex(xs[1..], x)
  }

  lemma {:induction false} FirstIndexSnoc(xs: seq<string>, y: string, x: string)
    requires x in xs + [y]
    ensures x in xs ==> FirstIndex(xs + [y], x) == FirstIndex(xs, x)
    ensures x !in xs ==> FirstIndex(xs + [y], x) == |xs|
  {
    var k := FirstIndex(xs + [y], x);
    if x in xs {
      var j, zs := FirstIndex(xs, x), xs + [y];
      assert zs[j] == x && zs[..j] == xs[..j];
    } else {
      assert (xs + [y])[..|xs|] == xs;
    }
  }

  /** Distinct lists values in the order of their first occurrence in xs. */
  lemma {:induction false} DistinctFirstSeenOrder(xs: seq<string>)
    ensures forall i, j :: 0 <= i < j < |Distinct(xs)| ==>
      FirstIndex(xs, Distinct(xs)[i]) < FirstIndex(xs, Distinct(xs)[j])
  {
    if xs != [] {
      var init, last := xs[..|xs| - 1], xs[|xs| - 1];
      assert xs == init + [last];
      DistinctFirstSeenOrder(init);
      var d, r := Distinct(init), Distinct(xs);
      forall i, j | 0 <= i < j < |r|
        ensures FirstIndex(xs, r[i]) < FirstIndex(xs, r[j])
      {
        FirstIndexSnoc(init, last, r[i]);
        FirstIndexSnoc(init, last, r[j]);
        if j < |d| {
          assert r[i] == d[i] && r[j] == d[j];
        } else {
          assert r[i] == d[i] && r[i] in init;
          assert last !in d;
        }
      }
    }
  }

  /** The category selector's options: the "Todas" sentinel first, then each category
      of the products once, in the order first seen. */
  function CategoryOptions(ps: seq<Product>): (r: seq<string>)
    ensures |r| >= 1 && r[0] == AllCategories
    ensures forall c :: c in r[1..] <==> exists p :: p in ps && p.category == c
  {
    var cats := CategoriesOf(ps);
    assert forall p :: p in ps ==> p.category in cats by {
      forall p | p in ps ensures p.category in cats {
        var i :| 0 <= i < |ps| && ps[i] == p;
        assert cats[i] == p.category;
      }
    }
    [AllCategories] + Distinct(cats)
  }

  /** The options after the sentinel repeat nothing and follow first appearance in the list. */
  lemma CategoryOptionsOrder(ps: seq<Product>)
    ensures var rest := CategoryOptions(ps)[1..];
      && (forall i, j :: 0 <= i < j < |rest| ==> rest[i] != rest[j])
      && (forall i, j :: 0 <= i < j < |rest| ==>
            FirstIndex(CategoriesOf(ps), rest[i]) < FirstIndex(CategoriesOf(ps), rest[j]))
  {
    var rest := CategoryOptions(ps)[1..];
    assert rest == Distinct(CategoriesOf(ps));
    DistinctFirstSeenOrder(CategoriesOf(ps));
  }
}
