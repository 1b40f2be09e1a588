/** The filtered-and-sorted view: up to three successive filters (text, category,
    status) over a copy of the product list, then an in-place sort of that copy. */
module ViewQuery {
  import opened JsText
  import opened Products

  const AllStatuses: string := "Todos"

  /** How the view is ordered: by "price", by "quantity", or by name for any other
      key; ascending when dir is "asc", descending for any other dir. */
  datatype SortSpec = SortSpec(key: string, dir: string)

  /** The filter and sort parameters the view depends on. */
  datatype ViewParams = ViewParams(query: string, category: string, status: string, sort: SortSpec)

  // ---------------------------------------------------------------------------
  // Filtering

  /** One filter step. */
  datatype Criterion =
    | TextMatch(needle: string)
    | CategoryIs(category: string)
    | StatusIs(status: string)

  /** The needle occurs, ignoring case, in the name, sku, category or location. */
  predicate TextHit(p: Product, needle: string) {
    || Includes(ToLower(p.name), needle)
    || Includes(ToLower(p.sku), needle)
    || Includes(ToLower(p.category), needle)
    || Includes(ToLower(p.location), needle)
  }

  predicate Satisfies(p: Product, c: Criterion) {
    match c
    case TextMatch(needle) => TextHit(p, needle)
    case CategoryIs(cat) => p.category == cat
    case StatusIs(st) => StatusOf(p) == st
  }

  /** Array.prototype.filter with one criterion. */
  function Keep(ps: seq<Product>, c: Criterion): (r: seq<Product>)
    ensures |r| <= |ps|
  {
    if ps == [] then []
    else Keep(ps[..|ps| - 1], c) + (if Satisfies(ps[|ps| - 1], c) then [ps[|ps| - 1]] else [])
  }

  /** filter keeps every product that satisfies the criterion, as often as it occurs,
      and nothing else. */
  lemma {:induction false} KeepCount(ps: seq<Product>, c: Criterion, p: Product)
    ensures multiset(Keep(ps, c))[p] == if Satisfies(p, c) then multiset(ps)[p] else 0
  {
    if ps != [] {
      var init, last := ps[..|ps| - 1], ps[|ps| - 1];
      assert ps == init + [last];
      KeepCount(init, c, p);
    }
  }

  /** The filters that are switched on, in the order they are applied. The text filter
      is on when the trimmed query is non-empty, but it searches for the lower-cased
      query as typed, surrounding white space included. */
  function Criteria(v: ViewParams): (r: seq<Criterion>)
    ensures |r| <= 3
    ensures r == [] <==> Trim(v.query) == [] && v.category == AllCategories && v.status == AllStatuses
  {
    (if Trim(v.query) != [] then [TextMatch(ToLower(v.query))] else [])
    + (if v.category != AllCategories then [CategoryIs(v.category)] else [])
    + (if v.status != AllStatuses then [StatusIs(v.status)] else [])
  }

  /** Filtering by each criterion of cs in turn. */
  function KeepAll(ps: seq<Product>, cs: seq<Criterion>): seq<Product> {
    if cs == [] then ps else Keep(KeepAll(ps, cs[..|cs| - 1]), cs[|cs| - 1])
  }

  /** p satisfies every criterion of cs. */
  predicate PassesAll(p: Product, cs: seq<Criterion>) {
    cs == [] || (PassesAll(p, cs[..|cs| - 1]) && Satisfies(p, cs[|cs| - 1]))
  }

  lemma PassesAllSnoc(p: Product, cs: seq<Criterion>, c: Criterion)
    ensures PassesAll(p, cs + [c]) <==> PassesAll(p, cs) && Satisfies(p, c)
  {
    assert (cs + [c])[..|cs|] == cs;
  }

  lemma KeepAllSnoc(ps: seq<Product>, cs: seq<Criterion>, c: Criterion)
    ensures KeepAll(ps, cs + [c]) == Keep(KeepAll(ps, cs), c)
  {
    assert (cs + [c])[..|cs|] == cs;
  }

  /** A product passes every active filter: the text filter when the query is not
      all white space, the category filter unless it is "Todas", the status filter
      unless it is "Todos". */
  predicate Admits(v: ViewParams, p: Product) {
    && (AllWhite(v.query) || TextHit(p, ToLower(v.query)))
    && (v.category == AllCategories || p.category == v.category)
    && (v.status == AllStatuses || StatusOf(p) == v.status)
  }

  /** Passing each switched-on filter is being admitted. */
  lemma CriteriaAdmit(v: ViewParams, p: Product)
    ensures PassesAll(p, Criteria(v)) <==> Admits(v, p)
  {
    TrimEmptyIff(v.query);
    var t := if Trim(v.query) != [] then [TextMatch(ToLower(v.query))] else [];
    var tc := t + (if v.category != AllCategories then [CategoryIs(v.category)] else []);
    assert Criteria(v) == tc + (if v.status != AllStatuses then [StatusIs(v.status)] else []);
    if t != [] { PassesAllSnoc(p, [], t[0]); assert [] + [t[0]] == t; }
    if v.category != AllCategories { PassesAllSnoc(p, t, CategoryIs(v.category)); }
    else { assert tc == t; }
    if v.status != AllStatuses { PassesAllSnoc(p, tc, StatusIs(v.status)); }
    else { assert Criteria(v) == tc; }
  }

  /** The query's letter case does not matter: lower-casing it first admits the same
      products. */
  lemma QueryCaseIgnored(v: ViewParams, p: Product)
    ensures Admits(v, p) <==> Admits(v.(query := ToLower(v.query)), p)
  {
    AllWhiteToLower(v.query);
    ToLowerIdempotent(v.query);
  }

  /** The products of the view before sorting, as one pass over the list that keeps
      the products every active filter admits. */
  function Selection(ps: seq<Product>, v: ViewParams): seq<Product> {
    if ps == [] then []
    else Selection(ps[..|ps| - 1], v) + (if Admits(v, ps[|ps| - 1]) then [ps[|ps| - 1]] else [])
  }

  lemma KeepSnoc(ps: seq<Product>, p: Product, c: Criterion)
    ensures Keep(ps + [p], c) == Keep(ps, c) + (if Satisfies(p, c) then [p] else [])
  {
    assert (ps + [p])[..|ps|] == ps;
  }

  /** Filtering ps + [p] by each criterion in turn keeps p after the survivors of ps
      exactly when p satisfies them all. */
  lemma {:induction false} KeepAllSnocItem(ps: seq<Product>, p: Product, cs: seq<Criterion>)
    ensures KeepAll(ps + [p], cs) == KeepAll(ps, cs) + (if PassesAll(p, cs) then [p] else [])
  {
    if cs != [] {
      var init, c := cs[..|cs| - 1], cs[|cs| - 1];
      KeepAllSnocItem(ps, p, init);
      if PassesAll(p, init) {
        KeepSnoc(KeepAll(ps, init), p, c);
      } else {
        assert KeepAll(ps, init) + [] == KeepAll(ps, init);
      }
    }
  }

  lemma {:induction false} KeepAllOfEmpty(cs: seq<Criterion>)
    ensures KeepAll([], cs) == []
  {
    if cs != [] {
      KeepAllOfEmpty(cs[..|cs| - 1]);
    }
  }

  /** Applying the active filters one after another yields the same list, in the same
      order, as keeping in one pass the products that pass all of them. */
  lemma {:induction false} FiltersInTurn(ps: seq<Product>, v: ViewParams)
    ensures KeepAll(ps, Criteria(v)) == Selection(ps, v)
  {
    if ps == [] {
      KeepAllOfEmpty(Criteria(v));
    } else {
      var init, last := ps[..|ps| - 1], ps[|ps| - 1];
      assert ps == init + [last];
      FiltersInTurn(init, v);
      KeepAllSnocItem(init, last, Criteria(v));
      CriteriaAdmit(v, last);
    }
  }

  lemma {:induction false} KeepAllCount(ps: seq<Product>, cs: seq<Criterion>, p: Product)
    ensures multiset(KeepAll(ps, cs))[p] == if PassesAll(p, cs) then multiset(ps)[p] else 0
  {
    if cs != [] {
      var init, last := cs[..|cs| - 1], cs[|cs| - 1];
      KeepAllCount(ps, init, p);
      KeepCount(KeepAll(ps, init), last, p);
    }
  }

  /** The view holds exactly the admitted products, each as often as in the list:
      a product that fails some active filter is absent. */
  lemma SelectionCount(ps: seq<Product>, v: ViewParams, p: Product)
    ensures multiset(Selection(ps, v))[p] == if Admits(v, p) then multiset(ps)[p] else 0
  {
    FiltersInTurn(ps, v);
    KeepAllCount(ps, Criteria(v), p);
    CriteriaAdmit(v, p);
  }

  /** A status filter other than "Todos", "OK", "Bajo" or "Agotado" leaves the view empty. */
  lemma UnknownStatusEmptiesView(ps: seq<Product>, v: ViewParams)
    requires v.status !in {AllStatuses, InStock, LowStock, OutOfStock}
    ensures Selection(ps, v) == []
  {
    var s := Selection(ps, v);
    if s != [] {
      SelectionCount(ps, v, s[0]);
      assert false;
    }
  }

  /** With no filter switched on the view holds every product. */
  lemma NoFilterKeepsAll(ps: seq<Product>, v: ViewParams)
    requires AllWhite(v.query) && v.category == AllCategories && v.status == AllStatuses
    ensures Selection(ps, v) == ps
  {
    TrimEmptyIff(v.query);
    assert Criteria(v) == [];
    FiltersInTurn(ps, v);
  }

  // ---------------------------------------------------------------------------
  // Ordering

  /** The comparator's value before the direction is applied: its sign compares
      prices, quantities, or (for any other key) names. */
  function KeyCompare(key: string, a: Product, b: Product): (r: int)
    ensures key == "price" ==> (r < 0 <==> a.price < b.price) && (r == 0 <==> a.price == b.price)
    ensures key == "quantity" ==>
      (r < 0 <==> a.quantity < b.quantity) && (r == 0 <==> a.quantity == b.quantity)
    ensures key != "price" && key != "quantity" ==> (r == 0 <==> a.name == b.name)
  {
    if key == "price" then a.price - b.price
    else if key == "quantity" then a.quantity - b.quantity
    else LocaleCompare(a.name, b.name)
  }

  /** The factor the direction applies: +1 for "asc", -1 for any other value. */
  function Direction(dir: string): (r: int)
    ensures r * r == 1
    ensures r > 0 <==> dir == "asc"
  {
    if dir == "asc" then 1 else -1
  }

  /** The comparator passed to sort: a sorts no later than b when it is not positive. */
  function Compare(s: SortSpec, a: Product, b: Product): (r: int)
    ensures s.dir == "asc" ==> r == KeyCompare(s.key, a, b)
    ensures s.dir != "asc" ==> r == KeyCompare(s.key, b, a)
  {
    KeyCompareFlip(s.key, a, b);
    KeyCompare(s.key, a, b) * Direction(s.dir)
  }

  predicate InOrder(s: SortSpec, a: Product, b: Product) {
    Compare(s, a, b) <= 0
  }

  lemma KeyCompareFlip(key: string, a: Product, b: Product)
    ensures KeyCompare(key, b, a) == -KeyCompare(key, a, b)
  {
    LocaleCompareFlip(a.name, b.name);
  }

  lemma KeyCompareTrans(key: string, a: Product, b: Product, c: Product)
    requires KeyCompare(key, a, b) <= 0 && KeyCompare(key, b, c) <= 0
    ensures KeyCompare(key, a, c) <= 0
  {
    if key != "price" && key != "quantity" {
      LocaleCompareTrans(a.name, b.name, c.name);
    }
  }

  /** Any two products can be put in order. */
  lemma InOrderTotal(s: SortSpec, a: Product, b: Product)
    ensures InOrder(s, a, b) || InOrder(s, b, a)
  {
    KeyCompareFlip(s.key, a, b);
  }

  /** Putting in order is transitive, in either direction. */
  lemma InOrderTrans(s: SortSpec, a: Product, b: Product, c: Product)
    requires InOrder(s, a, b) && InOrder(s, b, c)
    ensures InOrder(s, a, c)
  {
    if s.dir == "asc" {
      KeyCompareTrans(s.key, a, b, c);
    } else {
      KeyCompareFlip(s.key, a, b);
      KeyCompareFlip(s.key, b, c);
      KeyCompareFlip(s.key, a, c);
      KeyCompareTrans(s.key, c, b, a);
    }
  }

  predicate Sorted(s: SortSpec, xs: seq<Product>) {
    forall i, j :: 0 <= i < j < |xs| ==> InOrder(s, xs[i], xs[j])
  }

  /** What a sorted view means for each key: prices, quantities or names are
      non-decreasing for "asc" and non-increasing for any other direction. */
  lemma SortedMeaning(s: SortSpec, xs: seq<Product>, i: int, j: int)
    requires Sorted(s, xs) && 0 <= i < j < |xs|
    ensures s.key == "price" ==>
      if s.dir == "asc" then xs[i].price <= xs[j].price else xs[i].price >= xs[j].price
    ensures s.key == "quantity" ==>
      if s.dir == "asc" then xs[i].quantity <= xs[j].quantity else xs[i].quantity >= xs[j].quantity
    ensures s.key != "price" && s.key != "quantity" ==>
      if s.dir == "asc" then LocaleCompare(xs[i].name, xs[j].name) <= 0
      else LocaleCompare(xs[j].name, xs[i].name) <= 0
  {
    assert InOrder(s, xs[i], xs[j]);
    LocaleCompareFlip(xs[i].name, xs[j].name);
  }

  /** Sorts the array in place with the comparator (a stable insertion sort):
      the result is ordered and holds the same products. */
  method SortInPlace(a: array<Product>, s: SortSpec)
    modifies a
    ensures Sorted(s, a[..])
    ensures multiset(a[..]) == old(multiset(a[..]))
  {
    var i := 0;
    while i < a.Length
      invariant 0 <= i <= a.Length
      invariant forall k, l :: 0 <= k < l < i ==> InOrder(s, a[k], a[l])
      invariant multiset(a[..]) == old(multiset(a[..]))
    {
      var j := i;
      while j > 0 && !InOrder(s, a[j - 1], a[j])
        invariant 0 <= j <= i
        invariant forall k, l :: 0 <= k < l <= i && k != j && l != j ==> InOrder(s, a[k], a[l])
        invariant forall l :: j < l <= i ==> InOrder(s, a[j], a[l])
        invariant multiset(a[..]) == old(multiset(a[..]))
      {
        SinkStep(a, s, i, j);
        j := j - 1;
      }
      forall k | 0 <= k < j
        ensures InOrder(s, a[k], a[j])
      {
        InOrderTrans(s, a[k], a[j - 1], a[j]);
      }
      i := i + 1;
    }
  }

  /** One step of the insertion: the element at j moves one place to the left. */
  method SinkStep(a: array<Product>, s: SortSpec, i: int, j: int)
    requires 0 < j <= i < a.Length
    requires !InOrder(s, a[j - 1], a[j])
    requires forall k, l :: 0 <= k < l <= i && k != j && l != j ==> InOrder(s, a[k], a[l])
    requires forall l :: j < l <= i ==> InOrder(s, a[j], a[l])
    modifies a
    ensures forall k, l :: 0 <= k < l <= i && k != j - 1 && l != j - 1 ==> InOrder(s, a[k], a[l])
    ensures forall l :: j - 1 < l <= i ==> InOrder(s, a[j - 1], a[l])
    ensures multiset(a[..]) == old(multiset(a[..]))
  {
    var x, y := a[j], a[j - 1];
    InOrderTotal(s, x, y);
    forall l | j < l <= i
      ensures InOrder(s, x, a[l])
    {
      InOrderTrans(s, x, y, a[l]);
    }
    a[j - 1], a[j] := x, y;
  }

  /** The view the inventory table shows: the list is copied, filtered by every active
      criterion in turn, then sorted in place. The products themselves are not touched. */
  method ApplyView(products: seq<Product>, v: ViewParams) returns (list: seq<Product>)
    ensures multiset(list) == multiset(Selection(products, v))
    ensures Sorted(v.sort, list)
  {
    var selected := FilterCopy(products, v);
    FiltersInTurn(products, v);
    list := SortCopy(selected, v.sort);
  }

  /** The filtering half of the view: each switched-on filter is applied in turn. */
  method FilterCopy(products: seq<Product>, v: ViewParams) returns (list: seq<Product>)
    ensures list == KeepAll(products, Criteria(v))
  {
    list := products;
    ghost var cs: seq<Criterion> := [];
    ghost var text := if Trim(v.query) != [] then [TextMatch(ToLower(v.query))] else [];
    ghost var cat := if v.category != AllCategories then [CategoryIs(v.category)] else [];
    ghost var st := if v.status != AllStatuses then [StatusIs(v.status)] else [];
    assert Criteria(v) == text + cat + st;
    if Trim(v.query) != [] {
      list, cs := Narrow(list, TextMatch(ToLower(v.query)), products, cs);
    }
    assert cs == text;
    if v.category != AllCategories {
      list, cs := Narrow(list, CategoryIs(v.category), products, cs);
    } else {
      assert text + cat == text;
    }
    assert cs == text + cat;
    if v.status != AllStatuses {
      list, cs := Narrow(list, StatusIs(v.status), products, cs);
    } else {
      assert text + cat + st == text + cat;
    }
  }

  /** One filter call of the chain: the survivors of the criteria so far are filtered by
      one more. */
  method Narrow(list: seq<Product>, c: Criterion, ghost products: seq<Product>, ghost cs: seq<Criterion>)
    returns (kept: seq<Product>, ghost cs': seq<Criterion>)
    requires list == KeepAll(products, cs)
    ensures kept == KeepAll(products, cs + [c])
    ensures cs' == cs + [c]
  {
    KeepAllSnoc(products, cs, c);
    kept, cs' := Keep(list, c), cs + [c];
  }

  /** Array.prototype.sort on the filtered copy: the list is put into an array,
      sorted in place, and read back. */
  method SortCopy(list: seq<Product>, s: SortSpec) returns (sorted: seq<Product>)
    ensures multiset(sorted) == multiset(list)
    ensures Sorted(s, sorted)
  {
    var a := new Product[|list|](k requires 0 <= k < |list| => list[k]);
    assert a[..] == list;
    SortInPlace(a, s);
    sorted := a[..];
  }
}
