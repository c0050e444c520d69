/** The tests the order and transaction tables share: the search by a
    numeric id, an exact-match select with an 'all' choice, and the amount
    bounds typed as text. */
module TableFilters {
  import opened Text
  import opened Catalog

  /** `id.toString().includes(term.trim())`, applied only when the trimmed
      term is not empty; a blank term keeps every row. */
  predicate IdMatches(id: nat, term: string)
  {
    Trim(term) != "" ==> Contains(Decimal(id), Trim(term))
  }

  /** A blank term matches every id, and a term naming the id matches it. */
  lemma IdSearchBasics(id: nat, term: string)
    ensures IsBlank(term) ==> IdMatches(id, term)
    ensures Trim(term) == Decimal(id) ==> IdMatches(id, term)
  {
    TrimEmptyIffBlank(term);
    if Trim(term) == Decimal(id) {
      assert HasPrefix(Decimal(id), Trim(term));
    }
  }

  /** A select with an 'all' choice: any other value must match exactly. */
  predicate SelectKeeps(choice: string, value: string)
  {
    choice != "all" ==> value == choice
  }

  /** `value >= parseFloat(min)` when `min` is not empty; a bound that is
      not a number keeps nothing. */
  predicate MinKeeps(min: NumberInput, value: real)
  {
    min.text != "" ==> min.parsed.Some? && value >= min.parsed.value
  }

  /** `value <= parseFloat(max)` when `max` is not empty. */
  predicate MaxKeeps(max: NumberInput, value: real)
  {
    max.text != "" ==> max.parsed.Some? && value <= max.parsed.value
  }

  /** An empty amount field as the pages start with it. */
  const NoAmount := NumberInput("", None)
}
