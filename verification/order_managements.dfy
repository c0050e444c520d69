/** The order management table: a list of orders narrowed by a search and
    a filter form, shown one page at a time. */
module OrderManagementsPage {
  import opened Text
  import opened Lists
  import opened Catalog
  import opened TableFilters

  /** An order as the table reads it; its date is an ordered integer. */
  datatype Order = Order(orderId: nat, orderDate: int, orderStatus: string, orderPrice: real)

  /** The filter form. An empty date bound is None. */
  datatype OrderFilters = OrderFilters(
    status: string, dateFrom: Option<int>, dateTo: Option<int>, amountMin: NumberInput, amountMax: NumberInput)

  /** The filters the page starts with and `clearFilters` restores. */
  const NoOrderFilters := OrderFilters("all", None, None, NoAmount, NoAmount)

  /** The date filter applies only when both bounds are set, inclusively. */
  predicate DateKeeps(from: Option<int>, to: Option<int>, o: Order)
  {
    from.Some? && to.Some? ==> from.value <= o.orderDate <= to.value
  }

  /** An order passes the search and every filter. */
  predicate OrderKeeps(term: string, f: OrderFilters, o: Order)
  {
    IdMatches(o.orderId, term) && SelectKeeps(f.status, o.orderStatus) && DateKeeps(f.dateFrom, f.dateTo, o)
    && MinKeeps(f.amountMin, o.orderPrice) && MaxKeeps(f.amountMax, o.orderPrice)
  }

  /** `filteredOrders`: search, status, date, minimum and maximum, in that
      order; a test that is not set keeps everything. */
  function FilteredOrders(orders: seq<Order>, term: string, f: OrderFilters): seq<Order>
  {
    var bySearch := Filter(orders, (o: Order) => IdMatches(o.orderId, term));
    var byStatus := Filter(bySearch, (o: Order) => SelectKeeps(f.status, o.orderStatus));
    var byDate := Filter(byStatus, (o: Order) => DateKeeps(f.dateFrom, f.dateTo, o));
    var byMin := Filter(byDate, (o: Order) => MinKeeps(f.amountMin, o.orderPrice));
    Filter(byMin, (o: Order) => MaxKeeps(f.amountMax, o.orderPrice))
  }

  /** The chain of tests is one filter by `OrderKeeps`. */
  lemma FilteredOrdersIsOneFilter(orders: seq<Order>, term: string, f: OrderFilters)
    ensures FilteredOrders(orders, term, f) == Filter(orders, o => OrderKeeps(term, f, o))
  {
    var search := (o: Order) => IdMatches(o.orderId, term);
    var status := (o: Order) => SelectKeeps(f.status, o.orderStatus);
    var date := (o: Order) => DateKeeps(f.dateFrom, f.dateTo, o);
    var min := (o: Order) => MinKeeps(f.amountMin, o.orderPrice);
    var max := (o: Order) => MaxKeeps(f.amountMax, o.orderPrice);
    var two := (o: Order) => IdMatches(o.orderId, term) && SelectKeeps(f.status, o.orderStatus);
    var three := (o: Order) => two(o) && DateKeeps(f.dateFrom, f.dateTo, o);
    var four := (o: Order) => three(o) && MinKeeps(f.amountMin, o.orderPrice);
    FilterFilter(orders, search, status, two);
    FilterFilter(orders, two, date, three);
    FilterFilter(orders, three, min, four);
    FilterFilter(orders, four, max, o => OrderKeeps(term, f, o));
  }

  /** `filteredOrders` holds, in their order, exactly the orders that pass
      the search and every filter; with no search and no filter it is the
      whole list. */
  lemma FilteredOrdersExactly(orders: seq<Order>, term: string, f: OrderFilters)
    ensures IsSubsequence(FilteredOrders(orders, term, f), orders)
    ensures forall k :: 0 <= k < |FilteredOrders(orders, term, f)| ==> OrderKeeps(term, f, FilteredOrders(orders, term, f)[k])
    ensures forall k :: 0 <= k < |orders| && OrderKeeps(term, f, orders[k]) ==> orders[k] in FilteredOrders(orders, term, f)
    ensures IsBlank(term) && f == NoOrderFilters ==> FilteredOrders(orders, term, f) == orders
  {
    FilteredOrdersIsOneFilter(orders, term, f);
    if IsBlank(term) && f == NoOrderFilters {
      NoOrderFiltersKeepAll(orders, term);
      FilterKeepsAll(orders, o => OrderKeeps(term, f, o));
    }
  }

  /** A blank search with the starting filters keeps every order. */
  lemma NoOrderFiltersKeepAll(orders: seq<Order>, term: string)
    requires IsBlank(term)
    ensures forall o :: o in orders ==> OrderKeeps(term, NoOrderFilters, o)
  {
    TrimEmptyIffBlank(term);
  }

  /** The page's state; the order list itself never changes. */
  class OrderTable {
    const orders: seq<Order>
    var searchTerm: string
    var itemsPerPage: nat
    var currentPage: nat
    var filters: OrderFilters
    var tempFilters: OrderFilters
    var isFilterModalOpen: bool

    predicate Valid()
      reads this
    {
      itemsPerPage > 0
    }

    constructor(orders: seq<Order>)
      ensures this.orders == orders && searchTerm == "" && itemsPerPage == 10 && currentPage == 0
      ensures filters == NoOrderFilters && tempFilters == NoOrderFilters && !isFilterModalOpen
      ensures Valid()
    {
      this.orders := orders;
      searchTerm := "";
      itemsPerPage := 10;
      currentPage := 0;
      filters := NoOrderFilters;
      tempFilters := NoOrderFilters;
      isFilterModalOpen := false;
    }

    /** The rows that pass the search and the active filters. */
    function Filtered(): seq<Order>
      reads this
    {
      FilteredOrders(orders, searchTerm, filters)
    }

    /** `pageCount`: `Math.ceil(filteredOrders.length / itemsPerPage)`. */
    function Pages(): (c: nat)
      requires Valid()
      reads this
      ensures c * itemsPerPage >= |Filtered()|
      ensures c > 0 ==> (c - 1) * itemsPerPage < |Filtered()|
    {
      PageCount(|Filtered()|, itemsPerPage)
    }

    /** `currentItems`: the current page of the filtered rows. */
    function CurrentItems(): (r: seq<Order>)
      requires Valid()
      reads this
      ensures |r| <= itemsPerPage
      ensures |r| > 0 <==> currentPage < Pages()
      ensures forall o :: o in r ==> o in Filtered()
    {
      PageItems(Filtered(), currentPage, itemsPerPage)
    }

    /** The search input: the page is kept. */
    method SetSearchTerm(term: string)
      modifies this`searchTerm
      ensures searchTerm == term
    {
      searchTerm := term;
    }

    /** The filter form's inputs edit the temporary filters only. */
    method EditTempFilters(f: OrderFilters)
      modifies this`tempFilters
      ensures tempFilters == f
    {
      tempFilters := f;
    }

    /** `applyFilters`: the temporary filters become the active ones, the
        form closes and the first page is shown. */
    method ApplyFilters()
      modifies this`filters, this`isFilterModalOpen, this`currentPage
      ensures filters == tempFilters && !isFilterModalOpen && currentPage == 0
    {
      filters := tempFilters;
      isFilterModalOpen := false;
      currentPage := 0;
    }

    /** `clearFilters`: both filter sets go back to 'all' and empty bounds;
        the page is not reset and the form stays open. */
    method ClearFilters()
      modifies this`filters, this`tempFilters
      ensures filters == NoOrderFilters && tempFilters == NoOrderFilters
    {
      filters := NoOrderFilters;
      tempFilters := NoOrderFilters;
    }

    /** The page-size select: a new size shows the first page. */
    method SetItemsPerPage(n: nat)
      requires n > 0
      modifies this`itemsPerPage, this`currentPage
      ensures itemsPerPage == n && currentPage == 0 && Valid()
    {
      itemsPerPage := n;
      currentPage := 0;
    }

    /** `handlePageChange`. */
    method PageChange(page: nat)
      modifies this`currentPage
      ensures currentPage == page
    {
      currentPage := page;
    }
  }
}
