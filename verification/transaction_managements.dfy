/** The transaction management table: a list of transactions narrowed by a
    search and a filter form, shown one page at a time. */
module TransactionManagementsPage {
  import opened Text
  import opened Lists
  import opened Catalog
  import opened TableFilters

  /** A transaction as the table reads it; its date is an ordered integer. */
  datatype Transaction = Transaction(
    transactionId: nat, transactionDate: int, transactionStatus: string, paymentMethod: string, amount: real)

  /** The filter form. An empty date bound is None. */
  datatype TransactionFilters = TransactionFilters(
    status: string, paymentMethod: string, dateFrom: Option<int>, dateTo: Option<int>,
    amountMin: NumberInput, amountMax: NumberInput)

  /** The filters the page starts with and `clearFilters` restores. */
  const NoTransactionFilters := TransactionFilters("all", "all", None, None, NoAmount, NoAmount)

  /** Each date bound applies on its own, inclusively. */
  predicate FromKeeps(from: Option<int>, t: Transaction)
  {
    from.Some? ==> t.transactionDate >= from.value
  }

  predicate ToKeeps(to: Option<int>, t: Transaction)
  {
    to.Some? ==> t.transactionDate <= to.value
  }

  /** A transaction passes the search and every filter. */
  predicate TransactionKeeps(term: string, f: TransactionFilters, t: Transaction)
  {
    IdMatches(t.transactionId, term) && SelectKeeps(f.status, t.transactionStatus)
    && SelectKeeps(f.paymentMethod, t.paymentMethod) && FromKeeps(f.dateFrom, t) && ToKeeps(f.dateTo, t)
    && MinKeeps(f.amountMin, t.amount) && MaxKeeps(f.amountMax, t.amount)
  }

  /** `filteredTransactions`: search, status, payment method, date from,
      date to, minimum and maximum, in that order; a test that is not set
      keeps everything. */
  function FilteredTransactions(ts: seq<Transaction>, term: string, f: TransactionFilters): seq<Transaction>
  {
    var bySearch := Filter(ts, (t: Transaction) => IdMatches(t.transactionId, term));
    var byStatus := Filter(bySearch, (t: Transaction) => SelectKeeps(f.status, t.transactionStatus));
    var byMethod := Filter(byStatus, (t: Transaction) => SelectKeeps(f.paymentMethod, t.paymentMethod));
    var byFrom := Filter(byMethod, (t: Transaction) => FromKeeps(f.dateFrom, t));
    var byTo := Filter(byFrom, (t: Transaction) => ToKeeps(f.dateTo, t));
    var byMin := Filter(byTo, (t: Transaction) => MinKeeps(f.amountMin, t.amount));
    Filter(byMin, (t: Transaction) => MaxKeeps(f.amountMax, t.amount))
  }

  /** The chain of tests is one filter by `TransactionKeeps`. */
  lemma FilteredTransactionsIsOneFilter(ts: seq<Transaction>, term: string, f: TransactionFilters)
    ensures FilteredTransactions(ts, term, f) == Filter(ts, t => TransactionKeeps(term, f, t))
  {
    var search := (t: Transaction) => IdMatches(t.transactionId, term);
    var status := (t: Transaction) => SelectKeeps(f.status, t.transactionStatus);
    var payment := (t: Transaction) => SelectKeeps(f.paymentMethod, t.paymentMethod);
    var from := (t: Transaction) => FromKeeps(f.dateFrom, t);
    var to := (t: Transaction) => ToKeeps(f.dateTo, t);
    var min := (t: Transaction) => MinKeeps(f.amountMin, t.amount);
    var max := (t: Transaction) => MaxKeeps(f.amountMax, t.amount);
    var two := (t: Transaction) => IdMatches(t.transactionId, term) && SelectKeeps(f.status, t.transactionStatus);
    var three := (t: Transaction) => two(t) && SelectKeeps(f.paymentMethod, t.paymentMethod);
    var four := (t: Transaction) => three(t) && FromKeeps(f.dateFrom, t);
    var five := (t: Transaction) => four(t) && ToKeeps(f.dateTo, t);
    var six := (t: Transaction) => five(t) && MinKeeps(f.amountMin, t.amount);
    FilterFilter(ts, search, status, two);
    FilterFilter(ts, two, payment, three);
    FilterFilter(ts, three, from, four);
    FilterFilter(ts, four, to, five);
    FilterFilter(ts, five, min, six);
    FilterFilter(ts, six, max, t => TransactionKeeps(term, f, t));
  }

  /** `filteredTransactions` holds, in their order, exactly the
      transactions that pass the search and every filter; with no search
      and no filter it is the whole list. */
  lemma FilteredTransactionsExactly(ts: seq<Transaction>, term: string, f: TransactionFilters)
    ensures IsSubsequence(FilteredTransactions(ts, term, f), ts)
    ensures forall k :: 0 <= k < |FilteredTransactions(ts, term, f)| ==>
      TransactionKeeps(term, f, FilteredTransactions(ts, term, f)[k])
    ensures forall k :: 0 <= k < |ts| && TransactionKeeps(term, f, ts[k]) ==> ts[k] in FilteredTransactions(ts, term, f)
    ensures IsBlank(term) && f == NoTransactionFilters ==> FilteredTransactions(ts, term, f) == ts
  {
    FilteredTransactionsIsOneFilter(ts, term, f);
    if IsBlank(term) && f == NoTransactionFilters {
      NoTransactionFiltersKeepAll(ts, term);
      FilterKeepsAll(ts, t => TransactionKeeps(term, f, t));
    }
  }

  /** A blank search with the starting filters keeps every transaction. */
  lemma NoTransactionFiltersKeepAll(ts: seq<Transaction>, term: string)
    requires IsBlank(term)
    ensures forall t :: t in ts ==> TransactionKeeps(term, NoTransactionFilters, t)
  {
    TrimEmptyIffBlank(term);
  }

  /** Unlike the orders table, a single date bound already filters: a
      'from' bound alone drops an earlier transaction. */
  lemma SingleDateBoundFilters(t: Transaction, from: int)
    requires t.transactionDate < from
    ensures !TransactionKeeps("", NoTransactionFilters.(dateFrom := Some(from)), t)
  {
    var f := NoTransactionFilters.(dateFrom := Some(from));
    assert f.dateFrom == Some(from);
    assert !FromKeeps(f.dateFrom, t);
  }

  /** The page's state; the transaction list itself never changes. */
  class TransactionTable {
    const transactions: seq<Transaction>
    var searchTerm: string
    var itemsPerPage: nat
    var currentPage: nat
    var filters: TransactionFilters
    var tempFilters: TransactionFilters
    var isFilterModalOpen: bool

    predicate Valid()
      reads this
    {
      itemsPerPage > 0
    }

    constructor(transactions: seq<Transaction>)
      ensures this.transactions == transactions && searchTerm == "" && itemsPerPage == 10 && currentPage == 0
      ensures filters == NoTransactionFilters && tempFilters == NoTransactionFilters && !isFilterModalOpen
      ensures Valid()
    {
      this.transactions := transactions;
      searchTerm := "";
      itemsPerPage := 10;
      currentPage := 0;
      filters := NoTransactionFilters;
      tempFilters := NoTransactionFilters;
      isFilterModalOpen := false;
    }

    /** The rows that pass the search and the active filters. */
    function Filtered(): seq<Transaction>
      reads this
    {
      FilteredTransactions(transactions, searchTerm, filters)
    }

    /** `pageCount`: `Math.ceil(filteredTransactions.length / itemsPerPage)`. */
    function Pages(): (c: nat)
      requires Valid()
      reads this
      ensures c * itemsPerPage >= |Filtered()|
      ensures c > 0 ==> (c - 1) * itemsPerPage < |Filtered()|
    {
      PageCount(|Filtered()|, itemsPerPage)
    }

    /** `currentItems`: the current page of the filtered rows. */
    function CurrentItems(): (r: seq<Transaction>)
      requires Valid()
      reads this
      ensures |r| <= itemsPerPage
      ensures |r| > 0 <==> currentPage < Pages()
      ensures forall t :: t in r ==> t in Filtered()
    {
      PageItems(Filtered(), currentPage, itemsPerPage)
    }

    /** The search input: the page is kept. */
    method SetSearchTerm(term: string)
      modifies this`searchTerm
      ensures searchTerm == term
    {
      searchTerm := term;
    }

    /** The filter form's inputs edit the temporary filters only. */
    method EditTempFilters(f: TransactionFilters)
      modifies this`tempFilters
      ensures tempFilters == f
    {
      tempFilters := f;
    }

    /** `applyFilters`: the temporary filters become the active ones, the
        form closes and the first page is shown. */
    method ApplyFilters()
      modifies this`filters, this`isFilterModalOpen, this`currentPage
      ensures filters == tempFilters && !isFilterModalOpen && currentPage == 0
    {
      filters := tempFilters;
      isFilterModalOpen := false;
      currentPage := 0;
    }

    /** `clearFilters`: both filter sets go back to their defaults; the
        page is not reset and the form stays open. */
    method ClearFilters()
      modifies this`filters, this`tempFilters
      ensures filters == NoTransactionFilters && tempFilters == NoTransactionFilters
    {
      filters := NoTransactionFilters;
      tempFilters := NoTransactionFilters;
    }

    /** The page-size select: a new size shows the first page. */
    method SetItemsPerPage(n: nat)
      requires n > 0
      modifies this`itemsPerPage, this`currentPage
      ensures itemsPerPage == n && currentPage == 0 && Valid()
    {
      itemsPerPage := n;
      currentPage := 0;
    }

    /** `handlePageChange`. */
    method PageChange(page: nat)
      modifies this`currentPage
      ensures currentPage == page
    {
      currentPage := page;
    }
  }
}
