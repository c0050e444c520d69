/** The product management table: a page of products fetched from the
    server, a filter form whose filters are applied on the client, row
    selection, and single and bulk deletion that are undone when the server
    refuses them. */
module ProductManagementsPage {
  import opened Text
  import opened Lists
  import opened Catalog

  /** A product row as the table reads it. Dates are ordered integers;
      `stock` is the quantity of every size of every property group, or
      None when the product has no properties. */
  datatype ListedProduct = ListedProduct(
    id: string, price: real, sale: Option<real>, createdAt: int,
    stock: Option<seq<seq<int>>>, tags: seq<string>)

  datatype SaleFilter = AllSales | OnSale | NotOnSale
  datatype StockFilter = AnyStock | InStock | LowStock | OutOfStock

  /** The filter form. An empty date bound is None; the price bounds keep
      their text and its `Number` value. */
  datatype Filters = Filters(
    sale: SaleFilter, dateFrom: Option<int>, dateTo: Option<int>, stock: StockFilter,
    tags: seq<string>, priceFrom: NumberInput, priceTo: NumberInput)

  /** The filters the page starts with and `clearFilters` restores. */
  const NoFilters := Filters(AllSales, None, None, AnyStock, [], NumberInput("", Some(0.0)), NumberInput("", Some(0.0)))

  /** The sale filter: 'yes' keeps a positive sale, 'no' a missing or zero
      one, 'all' everything. */
  predicate SaleKeeps(f: SaleFilter, p: ListedProduct)
  {
    match f
    case AllSales => true
    case OnSale => p.sale.Some? && p.sale.value > 0.0
    case NotOnSale => p.sale.None? || p.sale.value == 0.0
  }

  /** The date filter applies only when both bounds are set, inclusively. */
  predicate DateKeeps(from: Option<int>, to: Option<int>, p: ListedProduct)
  {
    from.Some? && to.Some? ==> from.value <= p.createdAt <= to.value
  }

  /** Some size of some group has a positive quantity. */
  predicate AnyPositive(p: ListedProduct)
  {
    p.stock.Some? &&
    exists i, j :: 0 <= i < |p.stock.value| && 0 <= j < |p.stock.value[i]| && p.stock.value[i][j] > 0
  }

  /** Some size of some group has a quantity from 1 to 20. */
  predicate AnyLow(p: ListedProduct)
  {
    p.stock.Some? &&
    exists i, j :: 0 <= i < |p.stock.value| && 0 <= j < |p.stock.value[i]| && 0 < p.stock.value[i][j] <= 20
  }

  /** Every size of every group has quantity 0. */
  predicate AllZero(p: ListedProduct)
  {
    p.stock.Some? &&
    forall i, j :: 0 <= i < |p.stock.value| && 0 <= j < |p.stock.value[i]| ==> p.stock.value[i][j] == 0
  }

  predicate StockKeeps(f: StockFilter, p: ListedProduct)
  {
    match f
    case AnyStock => true
    case InStock => AnyPositive(p)
    case LowStock => AnyLow(p)
    case OutOfStock => AllZero(p)
  }

  /** The tag filter: a product sharing a tag with a non-empty selection. */
  predicate TagsKeep(tags: seq<string>, p: ListedProduct)
  {
    |tags| > 0 ==> exists k :: 0 <= k < |p.tags| && p.tags[k] in tags
  }

  /** The price filter applies only when both bounds are non-empty text,
      inclusively; a bound that is not a number keeps nothing. */
  predicate PriceKeeps(from: NumberInput, to: NumberInput, p: ListedProduct)
  {
    from.text != "" && to.text != "" ==>
      from.parsed.Some? && to.parsed.Some? && from.parsed.value <= p.price <= to.parsed.value
  }

  /** A product passes every filter. */
  predicate Keeps(f: Filters, p: ListedProduct)
  {
    SaleKeeps(f.sale, p) && DateKeeps(f.dateFrom, f.dateTo, p) && StockKeeps(f.stock, p)
    && TagsKeep(f.tags, p) && PriceKeeps(f.priceFrom, f.priceTo, p)
  }

  /** `filteredProducts`: the filters in the order the page applies them;
      a filter that is not set keeps everything. */
  function FilteredProducts(ps: seq<ListedProduct>, f: Filters): seq<ListedProduct>
  {
    var bySale := Filter(ps, p => SaleKeeps(f.sale, p));
    var byDate := Filter(bySale, p => DateKeeps(f.dateFrom, f.dateTo, p));
    var byStock := Filter(byDate, p => StockKeeps(f.stock, p));
    var byTags := Filter(byStock, p => TagsKeep(f.tags, p));
    Filter(byTags, p => PriceKeeps(f.priceFrom, f.priceTo, p))
  }

  /** The chain of filters is one filter by `Keeps`. */
  lemma FilteredProductsIsOneFilter(ps: seq<ListedProduct>, f: Filters)
    ensures FilteredProducts(ps, f) == Filter(ps, p => Keeps(f, p))
  {
    var sale := (p: ListedProduct) => SaleKeeps(f.sale, p);
    var date := (p: ListedProduct) => DateKeeps(f.dateFrom, f.dateTo, p);
    var stock := (p: ListedProduct) => StockKeeps(f.stock, p);
    var tags := (p: ListedProduct) => TagsKeep(f.tags, p);
    var price := (p: ListedProduct) => PriceKeeps(f.priceFrom, f.priceTo, p);
    var two := (p: ListedProduct) => SaleKeeps(f.sale, p) && DateKeeps(f.dateFrom, f.dateTo, p);
    var three := (p: ListedProduct) => two(p) && StockKeeps(f.stock, p);
    var four := (p: ListedProduct) => three(p) && TagsKeep(f.tags, p);
    FilterFilter(ps, sale, date, two);
    FilterFilter(ps, two, stock, three);
    FilterFilter(ps, three, tags, four);
    FilterFilter(ps, four, price, p => Keeps(f, p));
  }

  /** The result holds, in their order, exactly the products that pass
      every filter. */
  lemma FilteredProductsExactly(ps: seq<ListedProduct>, f: Filters)
    ensures IsSubsequence(FilteredProducts(ps, f), ps)
    ensures forall k :: 0 <= k < |FilteredProducts(ps, f)| ==> Keeps(f, FilteredProducts(ps, f)[k])
    ensures forall k :: 0 <= k < |ps| && Keeps(f, ps[k]) ==> ps[k] in FilteredProducts(ps, f)
  {
    FilteredProductsIsOneFilter(ps, f);
  }

  /** For sales that are missing or not negative, 'yes' and 'no' split the
      list: every product is kept by exactly one of them. */
  lemma SaleFiltersPartition(ps: seq<ListedProduct>)
    requires forall k :: 0 <= k < |ps| ==> ps[k].sale.None? || ps[k].sale.value >= 0.0
    ensures multiset(Filter(ps, p => SaleKeeps(OnSale, p))) + multiset(Filter(ps, p => SaleKeeps(NotOnSale, p))) == multiset(ps)
  {
    FilterPartition(ps, p => SaleKeeps(OnSale, p), p => SaleKeeps(NotOnSale, p));
  }

  /** 'lowStock' keeps a subsequence of what 'inStock' keeps, and no stock
      filter keeps a product without properties. */
  lemma LowStockWithinInStock(ps: seq<ListedProduct>)
    ensures IsSubsequence(Filter(ps, p => StockKeeps(LowStock, p)), Filter(ps, p => StockKeeps(InStock, p)))
    ensures forall f: StockFilter, p: ListedProduct :: f != AnyStock && p.stock.None? ==> !StockKeeps(f, p)
  {
    forall p | AnyLow(p) ensures AnyPositive(p) {
      var i, j :| 0 <= i < |p.stock.value| && 0 <= j < |p.stock.value[i]| && 0 < p.stock.value[i][j] <= 20;
      assert p.stock.value[i][j] > 0;
    }
    FilterMonotone(ps, p => StockKeeps(LowStock, p), p => StockKeeps(InStock, p));
  }

  /** For products with properties and no negative quantity, 'inStock' and
      'outOfStock' split the list. */
  lemma StockFiltersPartition(ps: seq<ListedProduct>)
    requires forall k :: 0 <= k < |ps| ==> ps[k].stock.Some? && NoNegativeStock(ps[k])
    ensures multiset(Filter(ps, p => StockKeeps(InStock, p))) + multiset(Filter(ps, p => StockKeeps(OutOfStock, p))) == multiset(ps)
  {
    var inStock := p => StockKeeps(InStock, p);
    var outOfStock := p => StockKeeps(OutOfStock, p);
    forall k | 0 <= k < |ps| ensures inStock(ps[k]) != outOfStock(ps[k]) {
      InStockIffNotOut(ps[k]);
    }
    FilterPartition(ps, inStock, outOfStock);
  }

  /** No quantity of the product's properties is negative. */
  predicate NoNegativeStock(p: ListedProduct)
    requires p.stock.Some?
  {
    forall i, j :: 0 <= i < |p.stock.value| && 0 <= j < |p.stock.value[i]| ==> p.stock.value[i][j] >= 0
  }

  /** A product with properties and no negative quantity is in stock
      exactly when it is not out of stock. */
  lemma InStockIffNotOut(p: ListedProduct)
    requires p.stock.Some? && NoNegativeStock(p)
    ensures AnyPositive(p) != AllZero(p)
  {
    if !AllZero(p) {
      var i, j :| 0 <= i < |p.stock.value| && 0 <= j < |p.stock.value[i]| && p.stock.value[i][j] != 0;
      assert p.stock.value[i][j] > 0;
    }
  }

  /** An empty tag selection keeps every product. */
  lemma NoTagsKeepAll(ps: seq<ListedProduct>)
    ensures Filter(ps, p => TagsKeep([], p)) == ps
  {
    FilterKeepsAll(ps, p => TagsKeep([], p));
  }

  /** The rows the table draws, as written: it iterates `products`, so the
      filters have no visible effect. */
  function RowsAsWritten(products: seq<ListedProduct>, f: Filters): (rows: seq<ListedProduct>)
    ensures |rows| == |products|
    ensures forall k :: 0 <= k < |rows| ==> rows[k] == products[k]
  {
    products
  }

  /** A product without a sale is drawn under the 'yes' sale filter, which
      excludes it. */
  lemma RowsIgnoreFilters()
    ensures var p := ListedProduct("a", 1.0, None, 0, None, []);
      var f := NoFilters.(sale := OnSale);
      RowsAsWritten([p], f) == [p] && !Keeps(f, p) && FilteredProducts([p], f) == []
  {
    var p := ListedProduct("a", 1.0, None, 0, None, []);
    var f := NoFilters.(sale := OnSale);
    FilteredProductsExactly([p], f);
  }

  /** The rows the table is evidently meant to draw: the filtered products,
      each passing every filter, in their order. */
  function Rows(products: seq<ListedProduct>, f: Filters): (rows: seq<ListedProduct>)
    ensures IsSubsequence(rows, products)
    ensures forall k :: 0 <= k < |rows| ==> Keeps(f, rows[k])
    ensures forall k :: 0 <= k < |products| && Keeps(f, products[k]) ==> products[k] in rows
  {
    FilteredProductsExactly(products, f);
    FilteredProducts(products, f)
  }

  /** `products.map(product => product._id)`. */
  function Ids(ps: seq<ListedProduct>): (r: seq<string>)
    ensures |r| == |ps|
    ensures forall k :: 0 <= k < |ps| ==> r[k] == ps[k].id
  {
    seq(|ps|, k requires 0 <= k < |ps| => ps[k].id)
  }

  /** `products.filter(p => p._id !== id)`: exactly the products with that
      id are gone, the others keep their order. */
  function WithoutId(ps: seq<ListedProduct>, id: string): (r: seq<ListedProduct>)
    ensures IsSubsequence(r, ps)
    ensures forall k :: 0 <= k < |r| ==> r[k].id != id
    ensures forall k :: 0 <= k < |ps| && ps[k].id != id ==> ps[k] in r
  {
    Filter(ps, (p: ListedProduct) => p.id != id)
  }

  /** The products whose id is (or is not) selected. */
  function WithoutIds(ps: seq<ListedProduct>, ids: seq<string>): (r: seq<ListedProduct>)
    ensures IsSubsequence(r, ps)
    ensures forall k :: 0 <= k < |r| ==> r[k].id !in ids
    ensures forall k :: 0 <= k < |ps| && ps[k].id !in ids ==> ps[k] in r
  {
    Filter(ps, (p: ListedProduct) => p.id !in ids)
  }

  function WithIds(ps: seq<ListedProduct>, ids: seq<string>): (r: seq<ListedProduct>)
    ensures IsSubsequence(r, ps)
    ensures forall k :: 0 <= k < |r| ==> r[k].id in ids
    ensures forall k :: 0 <= k < |ps| && ps[k].id in ids ==> ps[k] in r
  {
    Filter(ps, (p: ListedProduct) => p.id in ids)
  }

  /** The bulk-delete undo puts back exactly what the delete took out: the
      kept and the removed products together are the original products. */
  lemma RemovedAndKeptAreAll(ps: seq<ListedProduct>, ids: seq<string>)
    ensures multiset(WithoutIds(ps, ids) + WithIds(ps, ids)) == multiset(ps)
  {
    FilterPartition(ps, (p: ListedProduct) => p.id !in ids, (p: ListedProduct) => p.id in ids);
  }

  /** Oldest first. */
  predicate SortedByCreation(s: seq<ListedProduct>)
  {
    forall k, l :: 0 <= k < l < |s| ==> s[k].createdAt <= s[l].createdAt
  }

  /** `sort((a, b) => a.createdAt < b.createdAt ? -1 : 1)` in place. The
      comparator never answers "equal", so the order of products created
      at the same time is not fixed; any sorted permutation is a correct
      result, and this one is an insertion sort. */
  method SortByCreation(a: array<ListedProduct>)
    modifies a
    ensures SortedByCreation(a[..])
    ensures multiset(a[..]) == multiset(old(a[..]))
  {
    var i := 0;
    while i < a.Length
      invariant 0 <= i <= a.Length
      invariant SortedByCreation(a[..i])
      invariant multiset(a[..]) == multiset(old(a[..]))
    {
      InsertLast(a, i);
      i := i + 1;
    }
  }

  /** One step of the insertion sort: `a[i]` moves down past the later
      products before it, leaving `a[..i + 1]` sorted. */
  method InsertLast(a: array<ListedProduct>, i: nat)
    requires i < a.Length && SortedByCreation(a[..i])
    modifies a
    ensures SortedByCreation(a[..i + 1])
    ensures multiset(a[..]) == multiset(old(a[..]))
  {
    var j := i;
    while j > 0 && a[j - 1].createdAt > a[j].createdAt
      invariant 0 <= j <= i
      invariant forall k, l :: 0 <= k < l <= i && k != j && l != j ==> a[k].createdAt <= a[l].createdAt
      invariant forall l :: j < l <= i ==> a[j].createdAt < a[l].createdAt
      invariant multiset(a[..]) == multiset(old(a[..]))
    {
      SwapDown(a, j);
      j := j - 1;
    }
    forall k, l | 0 <= k < l <= i ensures a[k].createdAt <= a[l].createdAt {
      if l == j && k < j - 1 {
        assert a[k].createdAt <= a[j - 1].createdAt;
      }
    }
  }

  /** Exchanges `a[j - 1]` and `a[j]`. */
  method SwapDown(a: array<ListedProduct>, j: nat)
    requires 0 < j < a.Length
    modifies a
    ensures a[..] == old(a[..])[j - 1 := old(a[j])][j := old(a[j - 1])]
    ensures multiset(a[..]) == multiset(old(a[..]))
  {
    a[j - 1], a[j] := a[j], a[j - 1];
  }

  /** One page of the server's list and the total it reports. */
  datatype Page = Page(products: seq<ListedProduct>, total: nat)

  /** The page's state. Each handler runs to completion: while a request
      is in flight every control of the page is disabled. */
  class ProductTable {
    var products: seq<ListedProduct>
    var selected: seq<string>
    var searchTerm: string
    var totalProducts: nat
    var filters: Filters
    var tempFilters: Filters
    var isFilterModalOpen: bool
    var itemsPerPage: nat
    var currentPage: nat

    predicate Valid()
      reads this
    {
      itemsPerPage > 0
    }

    constructor()
      ensures products == [] && selected == [] && searchTerm == "" && totalProducts == 0
      ensures filters == NoFilters && tempFilters == NoFilters && !isFilterModalOpen
      ensures itemsPerPage == 2 && currentPage == 0
      ensures Valid()
    {
      products := [];
      selected := [];
      searchTerm := "";
      totalProducts := 0;
      filters := NoFilters;
      tempFilters := NoFilters;
      isFilterModalOpen := false;
      itemsPerPage := 2;
      currentPage := 0;
    }

    /** `Math.ceil(totalProducts / itemsPerPage)`: pages of the server's
        whole list. */
    function PageCountOfTotal(): (c: nat)
      requires Valid()
      reads this
      ensures c * itemsPerPage >= totalProducts
      ensures c > 0 ==> (c - 1) * itemsPerPage < totalProducts
    {
      PageCount(totalProducts, itemsPerPage)
    }

    /** The `filteredProducts` memo over the page state: the fetched
        products that pass the active filters, in their order, which are
        the rows the page is meant to draw (see `Rows`). The table body
        draws `products` instead (`RowsAsWritten`, `DrawnRows`). */
    function FilteredRows(): (rows: seq<ListedProduct>)
      reads this
      ensures IsSubsequence(rows, products)
      ensures forall k :: 0 <= k < |rows| ==> Keeps(filters, rows[k])
      ensures forall k :: 0 <= k < |products| && Keeps(filters, products[k]) ==> products[k] in rows
    {
      Rows(products, filters)
    }

    /** The rows the table body draws from the page state: every fetched
        product, in order, whatever the active filters. */
    function DrawnRows(): (rows: seq<ListedProduct>)
      reads this
      ensures |rows| == |products|
      ensures forall k :: 0 <= k < |rows| ==> rows[k] == products[k]
    {
      RowsAsWritten(products, filters)
    }

    /** The end of a fetch: a page with products replaces the list and the
        total; a failed fetch leaves both. */
    method ReceivePage(page: Option<Page>)
      modifies this`products, this`totalProducts
      ensures page.Some? ==> products == page.value.products && totalProducts == page.value.total
      ensures page.None? ==> products == old(products) && totalProducts == old(totalProducts)
    {
      if page.Some? {
        products := page.value.products;
        totalProducts := page.value.total;
      }
    }

    /** `handleSelectAll`: every product id in list order, or nothing. */
    method SelectAll(checked: bool)
      modifies this`selected
      ensures checked ==> selected == Ids(products)
      ensures !checked ==> selected == []
    {
      if checked {
        selected := Ids(products);
      } else {
        selected := [];
      }
    }

    /** `handleSelect`: toggles one id. */
    method Select(id: string)
      modifies this`selected
      ensures selected == Toggle(old(selected), id)
      ensures NoDuplicates(old(selected)) ==> NoDuplicates(selected)
    {
      if NoDuplicates(selected) {
        ToggleNoDuplicates(selected, id);
      }
      selected := if id in selected then RemoveAll(selected, id) else selected + [id];
    }

    /** `handleDeleteSelected`: with a non-empty selection and a confirmed
        prompt, the selected products are removed; success clears the
        selection, failure puts the removed products back and sorts the
        list by creation date, keeping the selection. */
    method DeleteSelected(confirmed: bool, requestSucceeds: bool)
      modifies this`products, this`selected
      ensures !(|old(selected)| > 0 && confirmed) ==> products == old(products) && selected == old(selected)
      ensures |old(selected)| > 0 && confirmed && requestSucceeds ==>
        products == WithoutIds(old(products), old(selected)) && selected == []
      ensures |old(selected)| > 0 && confirmed && !requestSucceeds ==>
        SortedByCreation(products) && multiset(products) == multiset(old(products)) && selected == old(selected)
    {
      if |selected| > 0 && confirmed {
        var original := products;
        var updated := WithoutIds(products, selected);
        products := updated;
        if requestSucceeds {
          selected := [];
        } else {
          var back := updated + WithIds(original, selected);
          var a := new ListedProduct[|back|](k requires 0 <= k < |back| => back[k]);
          assert a[..] == back;
          SortByCreation(a);
          RemovedAndKeptAreAll(original, selected);
          products := a[..];
        }
      }
    }

    /** `handleDeleteSingleProduct`: once confirmed, the products with that
        id are removed, and the original list comes back if the request
        fails. The selection is not touched. */
    method DeleteSingle(id: string, confirmed: bool, requestSucceeds: bool)
      modifies this`products
      ensures !confirmed || !requestSucceeds ==> products == old(products)
      ensures confirmed && requestSucceeds ==> products == WithoutId(old(products), id)
    {
      if confirmed {
        var original := products;
        products := WithoutId(products, id);
        if !requestSucceeds {
          products := original;
        }
      }
    }

    /** The filter form's inputs edit the temporary filters only. */
    method EditTempFilters(f: Filters)
      modifies this`tempFilters
      ensures tempFilters == f
    {
      tempFilters := f;
    }

    /** `handleTagChange`: a checked tag is appended to the temporary tags,
        an unchecked one removed. */
    method TagChange(tag: string, checked: bool)
      modifies this`tempFilters
      ensures checked ==> tempFilters == old(tempFilters).(tags := old(tempFilters).tags + [tag])
      ensures !checked ==> tempFilters == old(tempFilters).(tags := RemoveAll(old(tempFilters).tags, tag))
    {
      if checked {
        tempFilters := tempFilters.(tags := tempFilters.tags + [tag]);
      } else {
        tempFilters := tempFilters.(tags := RemoveAll(tempFilters.tags, tag));
      }
    }

    /** `applyFilters`: the temporary filters become the active ones, the
        form closes and the first page is shown. */
    method ApplyFilters()
      modifies this`filters, this`isFilterModalOpen, this`currentPage
      ensures filters == tempFilters && !isFilterModalOpen && currentPage == 0
    {
      filters := tempFilters;
      isFilterModalOpen := false;
      currentPage := 0;
    }

    /** `clearFilters`: both filter sets go back to their defaults; the
        page is not reset. */
    method ClearFilters()
      modifies this`filters, this`tempFilters
      ensures filters == NoFilters && tempFilters == NoFilters
    {
      filters := NoFilters;
      tempFilters := NoFilters;
    }

    /** The page-size select: a new size shows the first page. */
    method SetItemsPerPage(n: nat)
      requires n > 0
      modifies this`itemsPerPage, this`currentPage
      ensures itemsPerPage == n && currentPage == 0 && Valid()
    {
      itemsPerPage := n;
      currentPage := 0;
    }

    /** `handleSearchChange`: a new term shows the first page. */
    method SearchChange(term: string)
      modifies this`searchTerm, this`currentPage
      ensures searchTerm == term && currentPage == 0
    {
      searchTerm := term;
      currentPage := 0;
    }

    /** `handlePageChange`. */
    method PageChange(page: nat)
      modifies this`currentPage
      ensures currentPage == page
    {
      currentPage := page;
    }
  }
}
