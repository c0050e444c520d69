/** The colour-size-quantity product form of the add page. The edit page
    holds the same state and runs the same handlers; it adds loading a stored
    product and sending the update. */
module AddProductPage {
  import opened Text
  import opened Lists
  import opened Catalog
  import opened Media
  import opened FormChecks
  import opened ObjectOrder

  const NoRowsMessage := "At least one color-size-quantity combination is required."
  const DuplicatePairMessage := "This color-size combination already exists."
  const TooManyImagesMessage := "You can only upload a maximum of 10 images."
  const TooManyVideosMessage := "You can only upload a maximum of 3 videos."
  const DuplicateImagesMessage := "Duplicate images detected."
  const DuplicateVideosMessage := "Duplicate videos detected."

  /** Some row already has this colour and this size. */
  predicate PairTaken(cs: seq<Combination>, color: string, size: string)
  {
    exists k :: 0 <= k < |cs| && cs[k].color == color && cs[k].size == size
  }

  predicate DistinctPairs(cs: seq<Combination>)
  {
    forall i, j :: 0 <= i < j < |cs| ==> cs[i].color != cs[j].color || cs[i].size != cs[j].size
  }

  /** Appending a row whose colour-size pair is not taken keeps the pairs
      distinct. */
  lemma AppendFreshPair(cs: seq<Combination>, c: Combination)
    requires DistinctPairs(cs) && !PairTaken(cs, c.color, c.size)
    ensures DistinctPairs(cs + [c])
  {
    forall i, j | 0 <= i < j < |cs + [c]|
      ensures (cs + [c])[i].color != (cs + [c])[j].color || (cs + [c])[i].size != (cs + [c])[j].size
    {
      if j == |cs| {
        assert (cs + [c])[i] == cs[i];
      }
    }
  }

  /** Removing a row keeps the pairs distinct. */
  lemma RemoveKeepsPairsDistinct(cs: seq<Combination>, index: int)
    requires DistinctPairs(cs)
    ensures DistinctPairs(RemoveAt(cs, index))
  {
    var r := RemoveAt(cs, index);
    if 0 <= index < |cs| {
      forall i, j | 0 <= i < j < |r| ensures r[i].color != r[j].color || r[i].size != r[j].size {
        var i' := if i < index then i else i + 1;
        var j' := if j < index then j else j + 1;
        assert r[i] == cs[i'] && r[j] == cs[j'];
      }
    }
  }

  /** What the colour-size forms submit. `id` is sent by the edit page only;
      `mainImage` falls back to 0. */
  datatype ProductPayload = ProductPayload(
    id: Option<string>, name: string, description: string,
    price: Option<real>, sale: Option<real>, properties: seq<PropertyGroup>,
    tags: seq<string>, images: seq<File>, mainImage: int,
    videos: seq<File>, mainVideo: Option<int>)

  /** Every field of the add and edit pages but the errors. */
  datatype FormContents = FormContents(
    productName: string, description: string, price: NumberInput, sale: NumberInput,
    images: seq<File>, videos: seq<File>, mainImage: Option<int>, combinations: seq<Combination>,
    currentColor: string, currentSize: string, currentQuantity: string, selectedTags: seq<string>)

  /** The fields as `useState` starts them and `clearForm` leaves them:
      every text empty, no file, no row, no main image. */
  function ClearedContents(): FormContents
  {
    FormContents("", "", NumberInput("", None), NumberInput("", None), [], [], None, [], "", "", "", [])
  }

  /** The state of the add and edit pages. Pictures and videos are their
      `File`s. `currentColor` has no control on either page, so it stays
      empty. */
  class ColorSizeForm {
    var productName: string
    var description: string
    var price: NumberInput
    var sale: NumberInput
    var images: seq<File>
    var videos: seq<File>
    var mainImage: Option<int>
    var combinations: seq<Combination>
    var currentColor: string
    var currentSize: string
    var currentQuantity: string
    var errors: FormErrors
    var selectedTags: seq<string>

    /** What the pages keep true of their lists: at most 10 pictures and 3
        videos, no two with the same signature, `mainImage` null or in range,
        and the rows' colour-size pairs distinct. */
    predicate ListsValid()
      reads this
    {
      && |images| <= MaxImages && |videos| <= MaxVideos
      && NoDuplicates(Signatures(images)) && NoDuplicates(Signatures(videos))
      && MainInRange(mainImage, |images|)
      && DistinctPairs(combinations)
    }

    function Contents(): FormContents
      reads this
    {
      FormContents(productName, description, price, sale, images, videos, mainImage, combinations,
        currentColor, currentSize, currentQuantity, selectedTags)
    }

    /** The errors `validateForm` computes from the current fields. */
    function CurrentErrors(): FormErrors
      reads this
    {
      ValidationErrors(productName, IsBlankText(description), price, sale,
        combinations, true, NoRowsMessage, |images|, |selectedTags|)
    }

    /** The empty form. */
    constructor ()
      ensures Contents() == ClearedContents() && errors == NoErrors
      ensures ListsValid()
    {
      productName, description := "", "";
      price, sale := NumberInput("", None), NumberInput("", None);
      images, videos, mainImage, combinations := [], [], None, [];
      currentColor, currentSize, currentQuantity := "", "", "";
      errors, selectedTags := NoErrors, [];
    }

    /** `validateForm`: rows need a colour, a size and a valid quantity. */
    method ValidateForm() returns (isValid: bool)
      modifies this`errors
      ensures errors == CurrentErrors()
      ensures isValid <==> errors == NoErrors
    {
      errors, isValid := Validate(productName, IsBlankText(description), price, sale,
        combinations, true, NoRowsMessage, |images|, |selectedTags|);
    }

    /** `handleAddCombination`: colour, size and quantity must all be filled
        and the colour-size pair new; the row is then appended and the inputs
        cleared. With `currentColor` empty every attempt ends with the
        "fill in all" message. */
    method AddCombination()
      modifies this`combinations, this`currentColor, this`currentSize, this`currentQuantity, this`errors
      ensures old(currentColor == "" || currentSize == "" || currentQuantity == "") ==>
        && combinations == old(combinations) && errors == old(errors).(combination := FillAllDetails)
        && currentColor == old(currentColor) && currentSize == old(currentSize) && currentQuantity == old(currentQuantity)
      ensures old(currentColor != "" && currentSize != "" && currentQuantity != ""
          && PairTaken(combinations, currentColor, currentSize)) ==>
        && combinations == old(combinations) && errors == old(errors).(combination := DuplicatePairMessage)
        && currentColor == old(currentColor) && currentSize == old(currentSize) && currentQuantity == old(currentQuantity)
      ensures old(currentColor != "" && currentSize != "" && currentQuantity != ""
          && !PairTaken(combinations, currentColor, currentSize)) ==>
        && combinations == old(combinations) + [Combination(old(currentColor), old(currentSize), QuantityOf(old(currentQuantity)))]
        && currentColor == "" && currentSize == "" && currentQuantity == ""
        && errors == old(errors).(combination := "")
      ensures old(DistinctPairs(combinations)) ==> DistinctPairs(combinations)
      ensures old(ListsValid()) ==> ListsValid()
    {
      if currentColor == "" || currentSize == "" || currentQuantity == "" {
        errors := errors.(combination := FillAllDetails);
        return;
      }
      if PairTaken(combinations, currentColor, currentSize) {
        errors := errors.(combination := DuplicatePairMessage);
        return;
      }
      var row := Combination(currentColor, currentSize, QuantityOf(currentQuantity));
      if DistinctPairs(combinations) {
        AppendFreshPair(combinations, row);
      }
      combinations := combinations + [row];
      currentColor, currentSize, currentQuantity := "", "", "";
      errors := errors.(combination := "");
    }

    /** `handleRemoveCombination`: drops row `index`; the "at least one"
        message is set only when the table was already empty. */
    method RemoveCombination(index: int)
      modifies this`combinations, this`errors
      ensures combinations == RemoveAt(old(combinations), index)
      ensures old(combinations) == [] ==> errors == old(errors).(combination := NoRowsMessage)
      ensures old(combinations) != [] ==> errors == old(errors)
      ensures old(DistinctPairs(combinations)) ==> DistinctPairs(combinations)
      ensures old(ListsValid()) ==> ListsValid()
    {
      var before := combinations;
      if DistinctPairs(combinations) {
        RemoveKeepsPairsDistinct(combinations, index);
      }
      combinations := RemoveAt(combinations, index);
      if |before| == 0 {
        errors := errors.(combination := NoRowsMessage);
      }
    }

    /** `handleImageUpload`: a batch larger than the free slots is refused
        whole; otherwise files whose signature is already in the list or
        earlier in the batch are dropped, the rest appended in order, and a
        null `mainImage` becomes 0. */
    method ImageUpload(files: seq<File>)
      modifies this`images, this`mainImage, this`errors
      ensures |files| > MaxImages - |old(images)| ==>
        images == old(images) && mainImage == old(mainImage) && errors == old(errors).(images := TooManyImagesMessage)
      ensures |files| <= MaxImages - |old(images)| ==>
        var added := FreshFiles(SignatureSet(old(images)), files);
        && images == old(images) + added
        && mainImage == (if added != [] && old(mainImage).None? then Some(0) else old(mainImage))
        && errors == old(errors).(images :=
             if added != [] then "" else if |added| < |files| then DuplicateImagesMessage else old(errors).images)
      ensures old(|images| <= MaxImages) ==> |images| <= MaxImages
      ensures old(NoDuplicates(Signatures(images))) ==> NoDuplicates(Signatures(images))
      ensures old(MainInRange(mainImage, |images|)) ==> MainInRange(mainImage, |images|)
      ensures old(ListsValid()) ==> ListsValid()
    {
      if |files| > MaxImages - |images| {
        errors := errors.(images := TooManyImagesMessage);
        return;
      }
      var added, duplicate := SelectNewFiles(images, files);
      FreshFilesLength(SignatureSet(images), files);
      if NoDuplicates(Signatures(images)) {
        AppendFreshKeepsSignaturesUnique(images, files);
      }
      if |added| > 0 {
        images := images + added;
        if mainImage.None? {
          mainImage := Some(0);
        }
        errors := errors.(images := "");
      } else if duplicate {
        errors := errors.(images := DuplicateImagesMessage);
      }
    }

    /** `handleVideoUpload`: refused whole when the list would pass 3;
        otherwise de-duplicated by signature like the pictures. */
    method VideoUpload(files: seq<File>)
      modifies this`videos, this`errors
      ensures |old(videos)| + |files| > MaxVideos ==>
        videos == old(videos) && errors == old(errors).(videos := TooManyVideosMessage)
      ensures |old(videos)| + |files| <= MaxVideos ==>
        var added := FreshFiles(SignatureSet(old(videos)), files);
        && videos == old(videos) + added
        && errors == old(errors).(videos :=
             if added != [] then "" else if |added| < |files| then DuplicateVideosMessage else old(errors).videos)
      ensures old(|videos| <= MaxVideos) ==> |videos| <= MaxVideos
      ensures old(NoDuplicates(Signatures(videos))) ==> NoDuplicates(Signatures(videos))
      ensures old(ListsValid()) ==> ListsValid()
    {
      if |videos| + |files| > MaxVideos {
        errors := errors.(videos := TooManyVideosMessage);
        return;
      }
      var added, duplicate := SelectNewFiles(videos, files);
      FreshFilesLength(SignatureSet(videos), files);
      if NoDuplicates(Signatures(videos)) {
        AppendFreshKeepsSignaturesUnique(videos, files);
      }
      if |added| > 0 {
        videos := videos + added;
        errors := errors.(videos := "");
      } else if duplicate {
        errors := errors.(videos := DuplicateVideosMessage);
      }
    }

    /** `handleRemoveImage(index)`: the picture is dropped, `mainImage`
        follows the removal, and an emptied list gets the "at least one"
        message. */
    method RemoveImage(index: nat)
      requires index < |images|
      modifies this`images, this`mainImage, this`errors
      ensures images == RemoveAt(old(images), index)
      ensures mainImage == MainAfterRemoval(old(mainImage), index, |images|)
      ensures images == [] ==> errors == old(errors).(images := ImagesRequired)
      ensures images != [] ==> errors == old(errors)
      ensures old(MainInRange(mainImage, |images|)) ==> MainInRange(mainImage, |images|)
      ensures old(NoDuplicates(Signatures(images))) ==> NoDuplicates(Signatures(images))
      ensures old(ListsValid()) ==> ListsValid()
    {
      if MainInRange(mainImage, |images|) {
        MainImageAfterRemoval(images, mainImage, index);
      }
      if NoDuplicates(Signatures(images)) {
        RemoveKeepsSignaturesUnique(images, index);
      }
      images := RemoveAt(images, index);
      mainImage := MainAfterRemoval(mainImage, index, |images|);
      if |images| == 0 {
        errors := errors.(images := ImagesRequired);
      }
    }

    /** `clearForm`: every field back to its initial value. */
    method ClearForm()
      modifies this
      ensures Contents() == ClearedContents() && errors == NoErrors
      ensures ListsValid()
    {
      ClearDetails();
      ClearMedia();
      ClearRows();
    }

    /** The text fields of `clearForm`. */
    method ClearDetails()
      modifies this`productName, this`description, this`price, this`sale
      ensures productName == "" && description == ""
      ensures price == NumberInput("", None) && sale == NumberInput("", None)
    {
      productName, description := "", "";
      price, sale := NumberInput("", None), NumberInput("", None);
    }

    /** The media fields of `clearForm`. */
    method ClearMedia()
      modifies this`images, this`videos, this`mainImage
      ensures images == [] && videos == [] && mainImage.None?
    {
      images, videos, mainImage := [], [], None;
    }

    /** The rows, the row inputs, the errors and the tags of `clearForm`. */
    method ClearRows()
      modifies this`combinations, this`currentColor, this`currentSize, this`currentQuantity, this`errors, this`selectedTags
      ensures combinations == [] && currentColor == "" && currentSize == "" && currentQuantity == ""
      ensures errors == NoErrors && selectedTags == []
    {
      combinations, currentColor, currentSize, currentQuantity := [], "", "", "";
      errors, selectedTags := NoErrors, [];
    }

    /** `p` is the payload `handleSubmit` builds from the current fields:
        the rows grouped by colour and listed as `Object.values` lists them;
        name and description trimmed; an empty sale sent as 0; `mainImage`
        defaulting to 0; `id` as the page supplies it. */
    predicate IsPayload(p: ProductPayload, id: Option<string>)
      reads this
    {
      && p.id == id
      && p.name == Trim(productName) && p.description == Trim(description)
      && p.price == price.parsed && p.sale == SaleValue(sale)
      && Some(p.properties) == SentProperties(combinations)
      && p.tags == selectedTags
      && p.images == images && p.mainImage == (if mainImage.Some? then mainImage.value else 0)
      && p.videos == videos && p.mainVideo == (if videos != [] then Some(0) else None)
    }

    /** The payload of `handleSubmit`, or None when the `reduce` throws on a
        colour named like an inherited property; each row lands in the group
        of its colour, in order. */
    method Payload(id: Option<string>) returns (p: Option<ProductPayload>)
      ensures p.None? <==> InheritsColor(combinations)
      ensures p.Some? ==> IsPayload(p.value, id)
      ensures p.Some? ==> IsGroupingOf(p.value.properties, combinations)
    {
      var groups := GroupCombinations(combinations);
      if groups.None? {
        return None;
      }
      SentGroupsAreGrouping(combinations);
      p := Some(ProductPayload(
        id := id,
        name := Trim(productName),
        description := Trim(description),
        price := price.parsed,
        sale := SaleValue(sale),
        properties := ObjectValues(groups.value),
        tags := selectedTags,
        images := images,
        mainImage := if mainImage.Some? then mainImage.value else 0,
        videos := videos,
        mainVideo := if videos != [] then Some(0) else None));
    }

    /** `handleSubmit` of the add page: the form is sent exactly when it is
        valid and the `reduce` does not throw; the errors are always those
        `validateForm` computes; a successful request clears the form, and
        otherwise every field but the errors is kept. */
    method Submit(requestSucceeds: bool) returns (sent: Option<ProductPayload>)
      modifies this
      ensures sent.Some? <==> old(CurrentErrors()) == NoErrors && !old(InheritsColor(combinations))
      ensures errors == old(CurrentErrors())
      ensures sent.Some? ==> old(IsPayload(sent.value, None))
      ensures sent.Some? && requestSucceeds ==> Contents() == ClearedContents()
      ensures sent.None? || !requestSucceeds ==> Contents() == old(Contents())
      ensures old(ListsValid()) ==> ListsValid()
    {
      var isValid := ValidateForm();
      if !isValid {
        return None;
      }
      sent := Payload(None);
      if sent.Some? && requestSucceeds {
        ClearForm();
      }
    }
  }
}
