/** The `validateForm` checks the three product forms share: the errors
    record, the field checks, and the per-combination messages of the
    `forEach` over the combination table. */
module FormChecks {
  import opened Text
  import opened Catalog

  /** The `errors` state of a product form; the empty string means no error. */
  datatype FormErrors = FormErrors(
    productName: string, description: string, price: string, sale: string,
    properties: string, tags: string, combination: string, images: string, videos: string)

  /** `initialErrors`: every field empty. */
  const NoErrors := FormErrors("", "", "", "", "", "", "", "", "")

  const NameRequired := "Product name is required."
  const DescriptionRequired := "Description is required."
  const PriceRequired := "Valid price is required."
  const SaleOutOfRange := "Sale must be between 0% and 100%."
  const ImagesRequired := "At least one image is required."
  const TagsRequired := "At least one tag must be selected."
  const FillAllDetails := "Please fill in all combination details."

  /** `!productName.trim()` (also used for the description). */
  predicate IsBlankText(s: string)
  {
    Trim(s) == ""
  }

  /** `!price || parseFloat(price) <= 0`: an empty box, or a number that is not
      positive. Text that reads as no number at all passes, since NaN <= 0 is
      false. */
  predicate PriceInvalid(price: NumberInput)
  {
    price.text == "" || (price.parsed.Some? && price.parsed.value <= 0.0)
  }

  /** `sale && (isNaN(saleValue) || saleValue < 0 || saleValue > 100)`: an empty
      box passes. */
  predicate SaleInvalid(sale: NumberInput)
  {
    sale.text != "" && (sale.parsed.None? || sale.parsed.value < 0.0 || sale.parsed.value > 100.0)
  }

  /** `sale ? parseFloat(sale) : 0`: the sale the payload carries. */
  function SaleValue(sale: NumberInput): (v: Option<real>)
    ensures sale.text == "" ==> v == Some(0.0)
    ensures !SaleInvalid(sale) ==> v.Some? && 0.0 <= v.value <= 100.0
  {
    if sale.text == "" then Some(0.0) else sale.parsed
  }

  function ColorMissingMessage(index: nat): string
  {
    "Color is required for combination " + Decimal(index + 1) + "."
  }

  function SizeMissingMessage(index: nat): string
  {
    "Size is required for combination " + Decimal(index + 1) + "."
  }

  function QuantityInvalidMessage(index: nat): string
  {
    "Valid quantity is required for combination " + Decimal(index + 1) + "."
  }

  /** A complete row: a colour when the form asks for one, a size and a
      valid quantity. */
  predicate IsCompleteRow(c: Combination, checkColor: bool)
  {
    (checkColor ==> c.color != "") && c.size != "" && IsValidQuantity(c.quantity)
  }

  /** The message the checks on row `index` leave behind, or "" for a
      complete row. The checks run colour, size, quantity, each overwriting
      the one before, so the quantity message wins over the size message and
      the size message over the colour message. */
  function RowMessage(c: Combination, index: nat, checkColor: bool): (m: string)
    ensures m == "" <==> IsCompleteRow(c, checkColor)
    ensures !IsValidQuantity(c.quantity) ==> m == QuantityInvalidMessage(index)
    ensures IsValidQuantity(c.quantity) && c.size == "" ==> m == SizeMissingMessage(index)
    ensures IsValidQuantity(c.quantity) && c.size != "" && checkColor && c.color == "" ==> m == ColorMissingMessage(index)
  {
    if !IsValidQuantity(c.quantity) then QuantityInvalidMessage(index)
    else if c.size == "" then SizeMissingMessage(index)
    else if checkColor && c.color == "" then ColorMissingMessage(index)
    else ""
  }

  /** The index of the last incomplete row among the first `n`, if any. */
  function LastIncomplete(cs: seq<Combination>, n: nat, checkColor: bool): (r: Option<nat>)
    requires n <= |cs|
    ensures r.None? <==> forall k :: 0 <= k < n ==> IsCompleteRow(cs[k], checkColor)
    ensures r.Some? ==> r.value < n && !IsCompleteRow(cs[r.value], checkColor)
    ensures r.Some? ==> forall k :: r.value < k < n ==> IsCompleteRow(cs[k], checkColor)
  {
    if n == 0 then None
    else if !IsCompleteRow(cs[n - 1], checkColor) then Some(n - 1)
    else LastIncomplete(cs, n - 1, checkColor)
  }

  /** The `combination` field `validateForm` produces: the form's "at least
      one" message for an empty table, otherwise the message of the last
      incomplete row, or "". */
  function CombinationError(cs: seq<Combination>, checkColor: bool, emptyMessage: string): (m: string)
  {
    if cs == [] then emptyMessage else LastRowMessage(cs, |cs|, checkColor)
  }

  /** The message of the last incomplete row among the first `n`, or ""
      when all of them are complete. */
  function LastRowMessage(cs: seq<Combination>, n: nat, checkColor: bool): string
    requires n <= |cs|
  {
    match LastIncomplete(cs, n, checkColor)
    case None => ""
    case Some(i) => RowMessage(cs[i], i, checkColor)
  }

  /** With several incomplete rows, the message names the last one; with
      none it is empty; an empty table gets the form's own message. */
  lemma CombinationErrorNamesLastRow(cs: seq<Combination>, checkColor: bool, emptyMessage: string)
    requires emptyMessage != ""
    ensures CombinationError(cs, checkColor, emptyMessage) == "" <==>
      |cs| > 0 && forall k :: 0 <= k < |cs| ==> IsCompleteRow(cs[k], checkColor)
    ensures forall i :: (0 <= i < |cs| && !IsCompleteRow(cs[i], checkColor)
                         && (forall k :: i < k < |cs| ==> IsCompleteRow(cs[k], checkColor)))
                        ==> CombinationError(cs, checkColor, emptyMessage) == RowMessage(cs[i], i, checkColor)
  {
    var r := LastIncomplete(cs, |cs|, checkColor);
    if r.Some? {
      assert RowMessage(cs[r.value], r.value, checkColor) != "";
    }
    forall i | 0 <= i < |cs| && !IsCompleteRow(cs[i], checkColor)
        && (forall k :: i < k < |cs| ==> IsCompleteRow(cs[k], checkColor))
      ensures CombinationError(cs, checkColor, emptyMessage) == RowMessage(cs[i], i, checkColor)
    {
      assert r.Some?;
      assert !(i < r.value) && !(r.value < i);
    }
  }

  /** The `combinations.forEach` of `validateForm`: each row's failing checks
      overwrite the message in turn, and any failure makes the form invalid. */
  method CheckCombinations(cs: seq<Combination>, checkColor: bool, emptyMessage: string)
    returns (message: string, valid: bool)
    requires emptyMessage != ""
    ensures message == CombinationError(cs, checkColor, emptyMessage)
    ensures valid <==> message == ""
  {
    if |cs| == 0 {
      return emptyMessage, false;
    }
    message, valid := "", true;
    var i := 0;
    while i < |cs|
      invariant 0 <= i <= |cs|
      invariant valid <==> forall k :: 0 <= k < i ==> IsCompleteRow(cs[k], checkColor)
      invariant message == Scan(cs, i, checkColor)
    {
      var rowMessage, complete := CheckRow(message, cs[i], i, checkColor);
      message := rowMessage;
      valid := valid && complete;
      i := i + 1;
    }
    ScanIsLastRowMessage(cs, i, checkColor);
  }

  /** The message after the checks of the first `n` rows, each row's
      checks applied in turn to the message the rows before it left. */
  function Scan(cs: seq<Combination>, n: nat, checkColor: bool): string
    requires n <= |cs|
  {
    if n == 0 then "" else RowStep(Scan(cs, n - 1, checkColor), cs[n - 1], n - 1, checkColor)
  }

  /** The checks on one row: a complete row leaves the message alone, an
      incomplete one replaces it by the row's own message. */
  function RowStep(message: string, c: Combination, index: nat, checkColor: bool): string
  {
    if IsCompleteRow(c, checkColor) then message else RowMessage(c, index, checkColor)
  }

  /** Running the checks row by row leaves the message of the last
      incomplete row, or "" when there is none. */
  lemma {:induction false} ScanIsLastRowMessage(cs: seq<Combination>, n: nat, checkColor: bool)
    requires n <= |cs|
    ensures Scan(cs, n, checkColor) == LastRowMessage(cs, n, checkColor)
  {
    if n > 0 {
      ScanIsLastRowMessage(cs, n - 1, checkColor);
    }
  }

  /** The checks on one row: the message is left alone for a complete row
      and otherwise ends as the row's own message. */
  method CheckRow(message: string, c: Combination, index: nat, checkColor: bool)
    returns (m: string, complete: bool)
    ensures complete == IsCompleteRow(c, checkColor)
    ensures m == RowStep(message, c, index, checkColor)
  {
    m, complete := message, true;
    if checkColor && c.color == "" {
      m := ColorMissingMessage(index);
      complete := false;
    }
    if c.size == "" {
      m := SizeMissingMessage(index);
      complete := false;
    }
    if !IsValidQuantity(c.quantity) {
      m := QuantityInvalidMessage(index);
      complete := false;
    }
  }

  /** The errors record `validateForm` produces. `descriptionMissing` is the
      form's own description check, `checkColor` whether rows need a colour
      and `emptyMessage` the form's message for an empty table. */
  function ValidationErrors(
    productName: string, descriptionMissing: bool, price: NumberInput, sale: NumberInput,
    cs: seq<Combination>, checkColor: bool, emptyMessage: string, imageCount: nat, tagCount: nat): (e: FormErrors)
    requires emptyMessage != ""
    ensures e == NoErrors <==>
      && !IsBlankText(productName) && !descriptionMissing && !PriceInvalid(price) && !SaleInvalid(sale)
      && |cs| > 0 && (forall k :: 0 <= k < |cs| ==> IsCompleteRow(cs[k], checkColor))
      && imageCount > 0 && tagCount > 0
    ensures e.properties == "" && e.videos == ""
  {
    CombinationErrorNamesLastRow(cs, checkColor, emptyMessage);
    FormErrors(
      productName := if IsBlankText(productName) then NameRequired else "",
      description := if descriptionMissing then DescriptionRequired else "",
      price := if PriceInvalid(price) then PriceRequired else "",
      sale := if SaleInvalid(sale) then SaleOutOfRange else "",
      properties := "",
      tags := if tagCount == 0 then TagsRequired else "",
      combination := CombinationError(cs, checkColor, emptyMessage),
      images := if imageCount == 0 then ImagesRequired else "",
      videos := "")
  }

  /** `validateForm`: starts from `initialErrors`, records the message of
      every failing check and clears `isValid` on each failure, so the form
      is valid exactly when no error field is set. */
  method Validate(
    productName: string, descriptionMissing: bool, price: NumberInput, sale: NumberInput,
    cs: seq<Combination>, checkColor: bool, emptyMessage: string, imageCount: nat, tagCount: nat)
    returns (errors: FormErrors, isValid: bool)
    requires emptyMessage != ""
    ensures errors == ValidationErrors(productName, descriptionMissing, price, sale, cs, checkColor, emptyMessage, imageCount, tagCount)
    ensures isValid <==> errors == NoErrors
  {
    errors := NoErrors;
    isValid := true;
    if IsBlankText(productName) {
      errors := errors.(productName := NameRequired);
      isValid := false;
    }
    if descriptionMissing {
      errors := errors.(description := DescriptionRequired);
      isValid := false;
    }
    if PriceInvalid(price) {
      errors := errors.(price := PriceRequired);
      isValid := false;
    }
    if SaleInvalid(sale) {
      errors := errors.(sale := SaleOutOfRange);
      isValid := false;
    }
    var message, rowsValid := CheckCombinations(cs, checkColor, emptyMessage);
    errors := errors.(combination := message);
    isValid := isValid && rowsValid;
    if imageCount == 0 {
      errors := errors.(images := ImagesRequired);
      isValid := false;
    }
    if tagCount == 0 {
      errors := errors.(tags := TagsRequired);
      isValid := false;
    }
  }
}
