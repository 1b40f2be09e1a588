/** The inventory screen's state and its update cycle: the product list, the filter,
    sort and paging parameters, the memoised view, and the effect that resets the page
    when the page count changes. */
module InventoryApp {
  import opened Products
  import opened ViewQuery
  import Paging

  /** The page size the screen starts with (and keeps: nothing changes it). */
  const DefaultPerPage: int := 10

  class Inventory {
    var products: seq<Product>
    var query: string
    var category: string
    var status: string
    var sort: SortSpec
    var perPage: int
    var page: int
    /** The memoised view, recomputed whenever the products or a filter or sort
        parameter changes. */
    var filtered: seq<Product>
    /** The page count the page-reset effect last ran for; 0 before its first run. */
    var effectPageCount: int

    function Params(): ViewParams
      reads this
    {
      ViewParams(query, category, status, sort)
    }

    /** The memoised view is the view of the current products and parameters. */
    ghost predicate ViewCurrent()
      reads this`products, this`query, this`category, this`status, this`sort, this`filtered
    {
      && multiset(filtered) == multiset(Selection(products, ViewParams(query, category, status, sort)))
      && Sorted(sort, filtered)
    }

    /** The memoised view is current, and the paging parameters are usable. */
    ghost predicate Valid()
      reads this
    {
      perPage > 0 && page >= 1 && ViewCurrent()
    }

    /** The state once the page-reset effect has caught up with the view. */
    ghost predicate Settled()
      reads this
    {
      Valid() && page <= PageCount() && effectPageCount == PageCount()
    }

    /** The summary cards, over the unfiltered products. */
    function Summary(): (r: Metrics)
      reads this
      ensures r.total == |products|
      ensures r.low == |WithStatus(products, LowStock)| && r.out == |WithStatus(products, OutOfStock)|
      ensures r.low + r.out <= r.total
    {
      MetricsCountStatuses(products);
      StatusesPartition(products);
      MetricsOf(products)
    }

    /** The options of the category selector. */
    function CategoryList(): (r: seq<string>)
      reads this
      ensures |r| >= 1 && r[0] == AllCategories
      ensures forall c :: c in r[1..] <==> exists p :: p in products && p.category == c
    {
      CategoryOptions(products)
    }

    /** The page count of the current view. */
    function PageCount(): (r: int)
      reads this
      requires perPage > 0
      ensures r >= 1 && |filtered| <= r * perPage
    {
      Paging.PageCount(|filtered|, perPage)
    }

    /** The rows of the table. */
    function PageItems(): (r: seq<Product>)
      reads this
      requires perPage > 0
      ensures page >= 1 ==> |r| <= perPage
      ensures forall x :: x in r ==> x in filtered
    {
      Paging.PageItems(filtered, page, perPage)
    }

    /** The initial state: the given products, no filter, sorted by name ascending,
        ten rows per page, first page; the view is computed and the effect has run. */
    constructor (initial: seq<Product>)
      ensures Settled()
      ensures products == initial && query == [] && category == AllCategories
      ensures status == AllStatuses && sort == SortSpec("name", "asc")
      ensures perPage == DefaultPerPage && page == 1
    {
      products := initial;
      query := [];
      category := AllCategories;
      status := AllStatuses;
      sort := SortSpec("name", "asc");
      perPage := DefaultPerPage;
      page := 1;
      filtered := [];
      effectPageCount := 0;
      new;
      Recompute();
      RunPageEffect();
    }

    /** Recomputes the memoised view from the current parameters. */
    method Recompute()
      requires perPage > 0 && page >= 1
      modifies this`filtered
      ensures Valid()
    {
      filtered := ApplyView(products, Params());
    }

    /** The page-reset effect: it runs only when the page count differs from the one it
        last ran for, and then sends a page past the last one back to page 1. */
    method RunPageEffect()
      requires Valid()
      modifies this`page, this`effectPageCount
      ensures effectPageCount == PageCount()
      ensures old(effectPageCount) != PageCount() ==> page == Paging.SettledPage(old(page), PageCount())
      ensures old(effectPageCount) == PageCount() ==> page == old(page)
      ensures Valid()
    {
      var count := Paging.PageCount(|filtered|, perPage);
      if count != effectPageCount {
        if page > count {
          page := 1;
        }
        effectPageCount := count;
      }
    }

    /** Typing in the search box. */
    method SetQuery(q: string)
      requires Settled()
      modifies this
      ensures Settled()
      ensures query == q && category == old(category) && status == old(status)
      ensures products == old(products) && sort == old(sort) && perPage == old(perPage)
      ensures page == Paging.SettledPage(old(page), PageCount())
    {
      query := q;
      Recompute();
      RunPageEffect();
    }

    /** Choosing a category option. */
    method SetCategory(c: string)
      requires Settled()
      modifies this
      ensures Settled()
      ensures category == c && query == old(query) && status == old(status)
      ensures products == old(products) && sort == old(sort) && perPage == old(perPage)
      ensures page == Paging.SettledPage(old(page), PageCount())
    {
      category := c;
      Recompute();
      RunPageEffect();
    }

    /** Choosing a status option. */
    method SetStatus(s: string)
      requires Settled()
      modifies this
      ensures Settled()
      ensures status == s && query == old(query) && category == old(category)
      ensures products == old(products) && sort == old(sort) && perPage == old(perPage)
      ensures page == Paging.SettledPage(old(page), PageCount())
    {
      status := s;
      Recompute();
      RunPageEffect();
    }

    /** In a settled state with a non-empty view the table shows at least one row. */
    lemma SettledPageNotEmpty()
      requires Settled() && filtered != []
      ensures PageItems() != []
    {
      Paging.InRangePageNotEmpty(filtered, page, perPage);
    }
  }

  /** The six items the screen starts with; the identifiers and the six timestamps (one
      clock reading per item) come from outside. */
  function SampleProducts(ids: seq<string>, nows: seq<string>): (ps: seq<Product>)
    requires |ids| == 6 && |nows| == 6
    ensures |ps| == 6
  {
    [ Product(ids[0], "TV-55-SAM-4K", "TV Samsung 55\" 4K", "Electrónica", 35999, 8, 3, "A1", nows[0]),
      Product(ids[1], "PHN-A15-128", "Samsung A15 128GB", "Telefonía", 15990, 2, 5, "B3", nows[1]),
      Product(ids[2], "LAP-HP-15FQ", "HP 15-fq Core i5", "Computadores", 44999, 0, 2, "C2", nows[2]),
      Product(ids[3], "MOU-LOG-MX3", "Mouse Logitech MX Master 3", "Accesorios", 4990, 17, 5, "D1", nows[3]),
      Product(ids[4], "HDP-SSD-1TB", "SSD NVMe 1TB", "Almacenamiento", 8990, 6, 4, "C5", nows[4]),
      Product(ids[5], "HDP-SSD-2TB", "SSD NVMe 2TB", "Almacenamiento", 16990, 1, 3, "C6", nows[5]) ]
  }

  /** The summary cards for the sample: two low, one out of stock, six items, and a
      stock value of 475732. */
  lemma SampleSummary(ids: seq<string>, nows: seq<string>)
    requires |ids| == 6 && |nows| == 6
    ensures MetricsOf(SampleProducts(ids, nows)) == Metrics(2, 1, 6, 475732)
  {
    var ps := SampleProducts(ids, nows);
    assert MetricsOf(ps[..0]) == Metrics(0, 0, 0, 0);
    assert ps[..1][..0] == ps[..0];
    assert MetricsOf(ps[..1]) == Metrics(0, 0, 1, 287992);
    assert ps[..2][..1] == ps[..1];
    assert MetricsOf(ps[..2]) == Metrics(1, 0, 2, 319972);
    assert ps[..3][..2] == ps[..2];
    assert MetricsOf(ps[..3]) == Metrics(1, 1, 3, 319972);
    assert ps[..4][..3] == ps[..3];
    assert MetricsOf(ps[..4]) == Metrics(1, 1, 4, 404802);
    assert ps[..5][..4] == ps[..4];
    assert MetricsOf(ps[..5]) == Metrics(1, 1, 5, 458742);
    assert ps[..5] == ps[..|ps| - 1];
  }
}
