/** The size-quantity product form used both to add a product and to edit
    one (`isEditMode`): its combination table, its picture list with the
    main-picture index, its validation and the payload it submits. */
module ProductFormPage {
  import opened Text
  import opened Lists
  import opened Catalog
  import opened Media
  import opened FormChecks
  import opened ObjectOrder

  /** What the rich-text editor holds when it is visually empty. */
  const EmptyEditorMarkup := "<p><br></p>"
  const NoRowsMessage := "At least one size-quantity combination is required."
  const DuplicateSizeMessage := "This size combination already exists."
  const TooManyImagesMessage := "You can only upload a maximum of 10 images."
  const DuplicateImagesMessage := "Duplicate images detected."
  /** The one colour every submitted group carries. */
  const ConstColor := "const"
  const ExistingImagePrefix := "existing-image"
  const ExistingVideoPrefix := "existing-video"
  const NewImagePrefix := "new-image-"

  /** A picture or video of the form: the `File` of a new upload (none for
      one the server already holds), its URL, its key (empty when missing)
      and the `tempKey` that tells stored items from new ones. */
  datatype FormMedia = FormMedia(file: Option<File>, url: string, key: string, tempKey: string)

  /** `!img.tempKey || !img.tempKey.startsWith(prefix)`: the item is not one
      the server already holds. */
  predicate IsNewMedia(m: FormMedia, existingPrefix: string)
  {
    !HasPrefix(m.tempKey, existingPrefix)
  }

  predicate IsNewImage(m: FormMedia)
  {
    IsNewMedia(m, ExistingImagePrefix)
  }

  predicate IsNewVideo(m: FormMedia)
  {
    IsNewMedia(m, ExistingVideoPrefix)
  }

  /** `${img.key || img.url}`: the name a picture is known by for the
      duplicate check. */
  function KnownName(m: FormMedia): string
  {
    if m.key != "" then m.key else m.url
  }

  function KnownNames(ms: seq<FormMedia>): (r: set<string>)
    ensures forall k :: 0 <= k < |ms| ==> KnownName(ms[k]) in r
  {
    set k | 0 <= k < |ms| :: KnownName(ms[k])
  }

  /** One file of an upload batch with what the browser does with it: the
      object URL made for it, whether the picture loads, and the clock
      reading `Date.now()` gives when it has loaded. */
  datatype ImageCandidate = ImageCandidate(file: File, objectUrl: string, loads: bool, stamp: nat)

  /** What becomes of one file of the batch. */
  datatype Screening = TooLarge | Duplicate | LoadFailed | Loaded

  /** The checks each file goes through, in order: the 5 MB cap, a name that
      is already known, then the picture load. Names are not added to the
      known set, so two files of one batch with the same name both pass. */
  function Screen(known: set<string>, c: ImageCandidate): (s: Screening)
    ensures s.Loaded? <==> c.file.size <= MaxImageBytes && c.file.name !in known && c.loads
  {
    if c.file.size > MaxImageBytes then TooLarge
    else if c.file.name in known then Duplicate
    else if !c.loads then LoadFailed
    else Loaded
  }

  /** The `images` message a screened-out file sets. */
  function ScreenMessage(c: ImageCandidate, s: Screening): string
  {
    match s
    case TooLarge => "Image \"" + c.file.name + "\" exceeds the maximum size of 5 MB."
    case Duplicate => DuplicateImagesMessage
    case LoadFailed => "Error loading image \"" + c.file.name + "\"."
    case Loaded => ""
  }

  /** The picture a loaded file becomes. */
  function UploadedImage(c: ImageCandidate): (m: FormMedia)
    ensures IsNewImage(m) && m.file == Some(c.file) && m.key == c.file.name
  {
    var m := FormMedia(Some(c.file), c.objectUrl, c.file.name, NewImagePrefix + Decimal(c.stamp));
    assert m.tempKey[0] == 'n';
    m
  }

  /** `results.filter(Boolean)`: the pictures of the loaded files, in batch
      order. */
  function LoadedImages(known: set<string>, cs: seq<ImageCandidate>): (r: seq<FormMedia>)
    ensures |r| <= |cs|
    ensures forall k :: 0 <= k < |r| ==> IsNewImage(r[k]) && r[k].file.Some? && r[k].key !in known
  {
    if cs == [] then []
    else
      var c := cs[|cs| - 1];
      LoadedImages(known, cs[..|cs| - 1]) + (if Screen(known, c).Loaded? then [UploadedImage(c)] else [])
  }

  /** The file is screened out for a reason of the given kind: a failed
      load (`late`), or the size or duplicate checks, which run before any
      load completes. */
  predicate FailsAs(known: set<string>, c: ImageCandidate, late: bool)
  {
    var s := Screen(known, c);
    if late then s.LoadFailed? else s.TooLarge? || s.Duplicate?
  }

  /** The message of the last file of `cs` screened out for a reason of the
      given kind. */
  function LastMessage(known: set<string>, cs: seq<ImageCandidate>, late: bool): Option<string>
  {
    if cs == [] then None
    else
      var c := cs[|cs| - 1];
      if FailsAs(known, c, late) then Some(ScreenMessage(c, Screen(known, c)))
      else LastMessage(known, cs[..|cs| - 1], late)
  }

  /** There is no message exactly when no file fails that way. */
  lemma {:induction false} NoMessageIffNoFailure(known: set<string>, cs: seq<ImageCandidate>, late: bool)
    ensures LastMessage(known, cs, late).None? <==> forall k :: 0 <= k < |cs| ==> !FailsAs(known, cs[k], late)
  {
    if cs != [] {
      var init := cs[..|cs| - 1];
      NoMessageIffNoFailure(known, init, late);
      assert forall k :: 0 <= k < |init| ==> init[k] == cs[k];
    }
  }

  /** File `k` is the last of `cs` that fails in the given way. */
  predicate IsLastFailure(known: set<string>, cs: seq<ImageCandidate>, late: bool, k: int)
  {
    && 0 <= k < |cs| && FailsAs(known, cs[k], late)
    && forall m :: k < m < |cs| ==> !FailsAs(known, cs[m], late)
  }

  /** A message kept is that of the last file of its kind. */
  lemma {:induction false} LastMessageIsLastFailure(known: set<string>, cs: seq<ImageCandidate>, late: bool)
    requires LastMessage(known, cs, late).Some?
    ensures exists k ::
              && IsLastFailure(known, cs, late, k)
              && LastMessage(known, cs, late).value == ScreenMessage(cs[k], Screen(known, cs[k]))
  {
    var n := |cs|;
    var c := cs[n - 1];
    if FailsAs(known, c, late) {
      assert IsLastFailure(known, cs, late, n - 1);
    } else {
      var init := cs[..n - 1];
      LastMessageIsLastFailure(known, init, late);
      var k :| IsLastFailure(known, init, late, k)
        && LastMessage(known, init, late).value == ScreenMessage(init[k], Screen(known, init[k]));
      LastFailureExtends(known, cs, late, k);
    }
  }

  /** The last failure of all but the last file stays the last failure
      when the last file does not fail. */
  lemma LastFailureExtends(known: set<string>, cs: seq<ImageCandidate>, late: bool, k: int)
    requires cs != [] && !FailsAs(known, cs[|cs| - 1], late)
    requires IsLastFailure(known, cs[..|cs| - 1], late, k)
    ensures IsLastFailure(known, cs, late, k) && cs[k] == cs[..|cs| - 1][k]
  {
    var init := cs[..|cs| - 1];
    assert forall m :: k < m < |init| ==> init[m] == cs[m];
  }

  /** Every row goes out under the one colour `"const"`, which is neither
      inherited nor an array index: the single group is sent as it is. */
  lemma ConstColorSent(cs: seq<Combination>)
    ensures !InheritsColor(Recolor(cs, ConstColor))
    ensures ObjectValues(GroupByColor(Recolor(cs, ConstColor)))
      == if cs == [] then [] else [PropertyGroup(ConstColor, Entries(cs))]
  {
    assert ConstColor !in InheritedKeys;
    SingleColorGrouping(cs, ConstColor);
    assert !IsArrayIndex(ConstColor) by {
      assert !IsDigit(ConstColor[0]);
    }
    NamedColorsKeepOrder(GroupByColor(Recolor(cs, ConstColor)));
  }

  /** The positions of an upload batch in the order its picture loads
      settle: every position once. */
  predicate IsSettleOrder(order: seq<nat>, n: nat)
  {
    && |order| == n
    && (forall k :: 0 <= k < |order| ==> order[k] < n)
    && (forall i :: 0 <= i < n ==> i in order)
  }

  /** The batch in the order its loads settle. */
  function InSettleOrder(batch: seq<ImageCandidate>, order: seq<nat>): (r: seq<ImageCandidate>)
    requires forall k :: 0 <= k < |order| ==> order[k] < |batch|
    ensures |r| == |order|
    ensures forall k :: 0 <= k < |order| ==> r[k] == batch[order[k]]
  {
    seq(|order|, k requires 0 <= k < |order| => batch[order[k]])
  }

  /** Whatever the order the loads settle in, a load-failure message is
      left exactly when some file of the batch fails to load, and it is the
      message of one of them. */
  lemma LateMessageOfSomeFailure(known: set<string>, batch: seq<ImageCandidate>, order: seq<nat>)
    requires IsSettleOrder(order, |batch|)
    ensures var late := LastMessage(known, InSettleOrder(batch, order), true);
      && (late.Some? <==> exists k :: 0 <= k < |batch| && Screen(known, batch[k]).LoadFailed?)
      && (late.Some? ==>
            exists k :: 0 <= k < |batch| && Screen(known, batch[k]).LoadFailed?
              && late.value == ScreenMessage(batch[k], LoadFailed))
  {
    var settled := InSettleOrder(batch, order);
    NoMessageIffNoFailure(known, settled, true);
    forall k | 0 <= k < |batch| && Screen(known, batch[k]).LoadFailed?
      ensures exists m :: 0 <= m < |settled| && FailsAs(known, settled[m], true)
    {
      assert k in order;
      var m :| 0 <= m < |order| && order[m] == k;
      assert settled[m] == batch[k];
    }
    if LastMessage(known, settled, true).Some? {
      LastMessageIsLastFailure(known, settled, true);
      var m :| IsLastFailure(known, settled, true, m)
        && LastMessage(known, settled, true).value == ScreenMessage(settled[m], Screen(known, settled[m]));
      assert settled[m] == batch[order[m]];
    }
  }

  /** The `images` message after a batch that fits: cleared when some
      picture was added, otherwise the last message set, load failures
      (in the order they settle) coming after the synchronous checks. */
  function ImagesMessageAfter(previous: string, known: set<string>, cs: seq<ImageCandidate>, order: seq<nat>): string
    requires IsSettleOrder(order, |cs|)
  {
    if LoadedImages(known, cs) != [] then ""
    else match LastMessage(known, InSettleOrder(cs, order), true)
      case Some(m) => m
      case None =>
        match LastMessage(known, cs, false)
        case Some(m) => m
        case None => previous
  }

  /** A batch whose files are all small enough, all load and all have new
      names is added whole, in order, even when some of them share a name:
      the duplicate check does not look inside the batch. */
  lemma {:induction false} BatchDuplicatesPass(known: set<string>, cs: seq<ImageCandidate>)
    requires forall k :: 0 <= k < |cs| ==>
      cs[k].file.size <= MaxImageBytes && cs[k].file.name !in known && cs[k].loads
    ensures |LoadedImages(known, cs)| == |cs|
    ensures forall k :: 0 <= k < |cs| ==> LoadedImages(known, cs)[k] == UploadedImage(cs[k])
  {
    if cs != [] {
      BatchDuplicatesPass(known, cs[..|cs| - 1]);
    }
  }

  /** A file named like a picture already in the list is never added, and a
      file over 5 MB never is either. */
  lemma {:induction false} ScreenedOutNeverAdded(known: set<string>, cs: seq<ImageCandidate>, c: ImageCandidate)
    requires c in cs
    requires c.file.name in known || c.file.size > MaxImageBytes
    ensures UploadedImage(c) !in LoadedImages(known, cs)
  {
    if c.file.size > MaxImageBytes {
      LoadedImagesAreSmall(known, cs);
    }
  }

  lemma {:induction false} LoadedImagesAreSmall(known: set<string>, cs: seq<ImageCandidate>)
    ensures forall k :: 0 <= k < |LoadedImages(known, cs)| ==>
      LoadedImages(known, cs)[k].file.value.size <= MaxImageBytes
  {
    if cs != [] {
      LoadedImagesAreSmall(known, cs[..|cs| - 1]);
    }
  }

  /** The promises of an upload batch. Each file is screened in turn as its
      promise is created: loaded pictures are collected in batch order, as
      `Promise.all` keeps them, and the size and duplicate messages are set
      then, in batch order. The load-failure messages are set later, as the
      loads settle, in the order `order` gives. */
  method ScreenBatch(known: set<string>, batch: seq<ImageCandidate>, order: seq<nat>)
    returns (added: seq<FormMedia>, early: Option<string>, late: Option<string>)
    requires IsSettleOrder(order, |batch|)
    ensures added == LoadedImages(known, batch)
    ensures early == LastMessage(known, batch, false)
    ensures late == LastMessage(known, InSettleOrder(batch, order), true)
    ensures late.Some? <==> exists k :: 0 <= k < |batch| && Screen(known, batch[k]).LoadFailed?
  {
    added, early, late := [], None, None;
    var i := 0;
    while i < |batch|
      invariant 0 <= i <= |batch|
      invariant added == LoadedImages(known, batch[..i])
      invariant early == LastMessage(known, batch[..i], false)
    {
      var c := batch[i];
      assert batch[..i + 1][..i] == batch[..i];
      var s := Screen(known, c);
      match s {
        case TooLarge => early := Some(ScreenMessage(c, s));
        case Duplicate => early := Some(ScreenMessage(c, s));
        case LoadFailed =>
        case Loaded => added := added + [UploadedImage(c)];
      }
      i := i + 1;
    }
    assert batch[..i] == batch;
    var settled := InSettleOrder(batch, order);
    var j := 0;
    while j < |order|
      invariant 0 <= j <= |order|
      invariant late == LastMessage(known, settled[..j], true)
    {
      var c := batch[order[j]];
      assert settled[..j + 1][..j] == settled[..j] && settled[j] == c;
      if Screen(known, c).LoadFailed? {
        late := Some(ScreenMessage(c, LoadFailed));
      }
      j := j + 1;
    }
    assert settled[..j] == settled;
    LateMessageOfSomeFailure(known, batch, order);
  }

  /** The new-picture count plus the pictures added stays within the cap
      whenever the batch fits in the free slots. */
  lemma NewImagesStayCapped(images: seq<FormMedia>, known: set<string>, cs: seq<ImageCandidate>)
    requires |cs| <= MaxImages - |Filter(images, IsNewImage)|
    ensures |Filter(images + LoadedImages(known, cs), IsNewImage)| <= MaxImages
  {
    var added := LoadedImages(known, cs);
    FilterAppend(images, added, IsNewImage);
    FilterKeepsAll(added, IsNewImage);
  }

  /** Setting `mainImage` to the number of new pictures before the upload,
      when it was null, gives an index in range; when the list held no stored
      picture it is the first picture of the batch. */
  lemma UploadMainImage(images: seq<FormMedia>, added: seq<FormMedia>)
    requires |added| > 0
    ensures 0 <= |Filter(images, IsNewImage)| < |images + added|
    ensures (forall k :: 0 <= k < |images| ==> IsNewImage(images[k])) ==>
      (images + added)[|Filter(images, IsNewImage)|] == added[0]
  {
    if forall k :: 0 <= k < |images| ==> IsNewImage(images[k]) {
      FilterKeepsAll(images, IsNewImage);
    }
  }

  /** The picture list, the main-picture index and the errors of the form. */
  datatype PictureFields = PictureFields(images: seq<FormMedia>, mainImage: Option<int>, errors: FormErrors)

  /** The result of `handleImageUpload`. A batch larger than the free slots
      (10 minus the new pictures) is refused whole with a message; otherwise
      the loaded files are appended, a null `mainImage` becomes the number of
      new pictures held before, and the `images` message is updated. */
  function AfterUpload(p: PictureFields, batch: seq<ImageCandidate>, order: seq<nat>): PictureFields
    requires IsSettleOrder(order, |batch|)
  {
    var newCount := |Filter(p.images, IsNewImage)|;
    if |batch| > MaxImages - newCount then p.(errors := p.errors.(images := TooManyImagesMessage))
    else
      var known := KnownNames(p.images);
      var added := LoadedImages(known, batch);
      PictureFields(
        p.images + added,
        if added != [] && p.mainImage.None? then Some(newCount) else p.mainImage,
        p.errors.(images := ImagesMessageAfter(p.errors.images, known, batch, order)))
  }

  /** An upload never takes the new pictures over the cap of 10, never
      leaves `mainImage` out of range, keeps the pictures already held, and
      a refused batch changes only the message. */
  lemma UploadKeepsInvariants(p: PictureFields, batch: seq<ImageCandidate>, order: seq<nat>)
    requires IsSettleOrder(order, |batch|)
    requires |Filter(p.images, IsNewImage)| <= MaxImages && MainInRange(p.mainImage, |p.images|)
    ensures |Filter(AfterUpload(p, batch, order).images, IsNewImage)| <= MaxImages
    ensures MainInRange(AfterUpload(p, batch, order).mainImage, |AfterUpload(p, batch, order).images|)
    ensures AfterUpload(p, batch, order).images[..|p.images|] == p.images
    ensures |batch| > MaxImages - |Filter(p.images, IsNewImage)| ==>
      AfterUpload(p, batch, order) == p.(errors := p.errors.(images := TooManyImagesMessage))
  {
    var newCount := |Filter(p.images, IsNewImage)|;
    if |batch| <= MaxImages - newCount {
      var added := LoadedImages(KnownNames(p.images), batch);
      NewImagesStayCapped(p.images, KnownNames(p.images), batch);
      if |added| > 0 {
        UploadMainImage(p.images, added);
      }
    }
  }

  /** `comb.size === size` for some row. */
  predicate SizeTaken(cs: seq<Combination>, size: string)
  {
    exists k :: 0 <= k < |cs| && cs[k].size == size
  }

  predicate DistinctSizes(cs: seq<Combination>)
  {
    forall i, j :: 0 <= i < j < |cs| ==> cs[i].size != cs[j].size
  }

  /** Appending a row whose size is not taken keeps sizes distinct. */
  lemma AppendFreshSize(cs: seq<Combination>, c: Combination)
    requires DistinctSizes(cs) && !SizeTaken(cs, c.size)
    ensures DistinctSizes(cs + [c])
  {
    forall i, j | 0 <= i < j < |cs + [c]| ensures (cs + [c])[i].size != (cs + [c])[j].size {
      if j == |cs| {
        assert (cs + [c])[i] == cs[i];
      }
    }
  }

  /** The rows with the quantity of row `index` replaced by `q`. */
  function WithQuantity(cs: seq<Combination>, index: int, q: Quantity): (r: seq<Combination>)
    ensures |r| == |cs|
    ensures forall k :: 0 <= k < |cs| ==> r[k].size == cs[k].size && r[k].color == cs[k].color
    ensures forall k :: 0 <= k < |cs| && k != index ==> r[k] == cs[k]
    ensures 0 <= index < |cs| ==> r[index].quantity == q
  {
    seq(|cs|, k requires 0 <= k < |cs| => if k == index then cs[k].(quantity := q) else cs[k])
  }

  /** Replacing a quantity keeps sizes distinct. */
  lemma WithQuantityKeepsSizes(cs: seq<Combination>, index: int, q: Quantity)
    requires DistinctSizes(cs)
    ensures DistinctSizes(WithQuantity(cs, index, q))
  {
  }

  /** The files of a list of items, in order. */
  function FilesOf(ms: seq<FormMedia>): (r: seq<Option<File>>)
    ensures |r| == |ms|
    ensures forall k :: 0 <= k < |ms| ==> r[k] == ms[k].file
  {
    seq(|ms|, k requires 0 <= k < |ms| => ms[k].file)
  }

  /** What the form submits. `id` and `deletedImages` are sent in edit mode
      only; prices are what `parseFloat` reads (None for NaN). */
  datatype Submission = Submission(
    id: Option<string>, name: string, description: string,
    price: Option<real>, sale: Option<real>, properties: seq<PropertyGroup>,
    tags: seq<string>, mainImage: Option<int>, mainVideo: Option<int>,
    images: seq<Option<File>>, videos: seq<Option<File>>, deletedImages: Option<seq<string>>,
    isActive: bool)

  /** Every field of the form but the errors. */
  datatype FormContents = FormContents(
    productName: string, description: string, price: NumberInput, sale: NumberInput,
    combinations: seq<Combination>, currentSize: string, currentQuantity: string,
    editingIndex: Option<int>, images: seq<FormMedia>, videos: seq<FormMedia>,
    mainImage: Option<int>, deletedImages: seq<string>, selectedTags: seq<string>, isActive: bool)

  /** The fields as `useState` starts them and `clearForm` leaves them:
      everything empty, no main image, the product active. `clearForm` does
      not reset the row being edited, so that is a parameter. */
  function ClearedContents(editingIndex: Option<int>): FormContents
  {
    FormContents("", "", NumberInput("", None), NumberInput("", None), [], "", "",
      editingIndex, [], [], None, [], [], true)
  }

  class ProductForm {
    /** Fixed by the route: whether an existing product is being edited, and
        its id. */
    const isEditMode: bool
    const productId: Option<string>

    var productName: string
    var description: string
    var price: NumberInput
    var sale: NumberInput
    var combinations: seq<Combination>
    var currentSize: string
    var currentQuantity: string
    var editingIndex: Option<int>
    var images: seq<FormMedia>
    var videos: seq<FormMedia>
    var mainImage: Option<int>
    /** The keys of stored pictures removed while editing. */
    var deletedImages: seq<string>
    var errors: FormErrors
    var selectedTags: seq<string>
    /** Whether the product is listed as active; true unless unchecked. */
    var isActive: bool

    function Contents(): FormContents
      reads this
    {
      FormContents(productName, description, price, sale, combinations, currentSize, currentQuantity,
        editingIndex, images, videos, mainImage, deletedImages, selectedTags, isActive)
    }

    /** The errors `validateForm` computes from the current fields. The
        description also counts as missing when it is the editor's empty
        paragraph; rows need no colour. */
    function CurrentErrors(): FormErrors
      reads this
    {
      ValidationErrors(productName, IsBlankText(description) || description == EmptyEditorMarkup,
        price, sale, combinations, false, NoRowsMessage, |images|, |selectedTags|)
    }

    /** The empty form. */
    constructor (isEditMode: bool, productId: Option<string>)
      ensures this.isEditMode == isEditMode && this.productId == productId
      ensures Contents() == ClearedContents(None) && errors == NoErrors
    {
      this.isEditMode := isEditMode;
      this.productId := productId;
      productName, description := "", "";
      price, sale := NumberInput("", None), NumberInput("", None);
      combinations, currentSize, currentQuantity, editingIndex := [], "", "", None;
      images, videos, mainImage, deletedImages := [], [], None, [];
      errors, selectedTags := NoErrors, [];
      isActive := true;
    }

    /** The "active" checkbox. */
    method SetActive(checked: bool)
      modifies this`isActive
      ensures isActive == checked
    {
      isActive := checked;
    }

    /** `validateForm`. */
    method ValidateForm() returns (isValid: bool)
      modifies this`errors
      ensures errors == CurrentErrors()
      ensures isValid <==> errors == NoErrors
    {
      errors, isValid := Validate(productName, IsBlankText(description) || description == EmptyEditorMarkup,
        price, sale, combinations, false, NoRowsMessage, |images|, |selectedTags|);
    }

    /** `handleAddCombination`: both inputs must be filled and the size new;
        the row `{ size, quantity: parseInt(quantity, 10) }` is then appended
        and the inputs cleared. */
    method AddCombination()
      modifies this`combinations, this`currentSize, this`currentQuantity, this`errors
      ensures old(currentSize == "" || currentQuantity == "") ==>
        combinations == old(combinations) && errors == old(errors).(combination := FillAllDetails)
        && currentSize == old(currentSize) && currentQuantity == old(currentQuantity)
      ensures old(currentSize != "" && currentQuantity != "" && SizeTaken(combinations, currentSize)) ==>
        combinations == old(combinations) && errors == old(errors).(combination := DuplicateSizeMessage)
        && currentSize == old(currentSize) && currentQuantity == old(currentQuantity)
      ensures old(currentSize != "" && currentQuantity != "" && !SizeTaken(combinations, currentSize)) ==>
        combinations == old(combinations) + [Combination("", old(currentSize), QuantityOf(old(currentQuantity)))]
        && currentSize == "" && currentQuantity == "" && errors == old(errors).(combination := "")
      ensures old(DistinctSizes(combinations)) ==> DistinctSizes(combinations)
    {
      if currentSize == "" || currentQuantity == "" {
        errors := errors.(combination := FillAllDetails);
        return;
      }
      if SizeTaken(combinations, currentSize) {
        errors := errors.(combination := DuplicateSizeMessage);
        return;
      }
      var row := Combination("", currentSize, QuantityOf(currentQuantity));
      if DistinctSizes(combinations) {
        AppendFreshSize(combinations, row);
      }
      combinations := combinations + [row];
      currentSize, currentQuantity := "", "";
      errors := errors.(combination := "");
    }

    /** `handleRemoveCombination`: drops row `index` and keeps the rest in
        order. The "at least one" message is set only when the table was
        already empty, so removing the last row does not set it. */
    method RemoveCombination(index: int)
      modifies this`combinations, this`errors
      ensures combinations == RemoveAt(old(combinations), index)
      ensures old(combinations) == [] ==> errors == old(errors).(combination := NoRowsMessage)
      ensures old(combinations) != [] ==> errors == old(errors)
    {
      var before := combinations;
      combinations := RemoveAt(combinations, index);
      if |before| == 0 {
        errors := errors.(combination := NoRowsMessage);
      }
    }

    /** The quantity box of the row being edited: the row holds the raw text
        until it is saved. */
    method SetQuantityText(index: int, input: NumberInput)
      modifies this`combinations
      ensures combinations == WithQuantity(old(combinations), index, Typed(input))
    {
      combinations := WithQuantity(combinations, index, Typed(input));
    }

    /** `handleSaveCombination(index, quantity)`: only the quantity of row
        `index` changes, to `parseInt(quantity, 10)`, and editing ends. */
    method SaveCombination(index: int, quantity: Quantity)
      modifies this`combinations, this`editingIndex
      ensures combinations == WithQuantity(old(combinations), index, Reparse(quantity))
      ensures editingIndex.None?
    {
      combinations := WithQuantity(combinations, index, Reparse(quantity));
      editingIndex := None;
    }

    /** The fields an upload changes. */
    function PictureState(): PictureFields
      reads this
    {
      PictureFields(images, mainImage, errors)
    }

    /** `handleImageUpload`, with its result stated by `AfterUpload`; the
        loads of the batch settle in the order `order` gives. */
    method ImageUpload(batch: seq<ImageCandidate>, order: seq<nat>)
      requires IsSettleOrder(order, |batch|)
      modifies this`images, this`mainImage, this`errors
      ensures PictureState() == AfterUpload(old(PictureState()), batch, order)
    {
      var newCount := |Filter(images, IsNewImage)|;
      if |batch| > MaxImages - newCount {
        errors := errors.(images := TooManyImagesMessage);
        return;
      }
      var known := KnownNames(images);
      var added, early, late := ScreenBatch(known, batch, order);
      var message := errors.images;
      var main := mainImage;
      if |added| > 0 {
        if mainImage.None? {
          main := Some(newCount);
        }
        message := "";
      } else if late.Some? {
        message := late.value;
      } else if early.Some? {
        message := early.value;
      }
      assert message == ImagesMessageAfter(errors.images, known, batch, order);
      images, mainImage, errors := images + added, main, errors.(images := message);
    }

    /** `handleRemoveImage(index)`: in edit mode a stored picture's key joins
        `deletedImages`; the picture is dropped; `mainImage` follows the
        removal; an emptied list gets the "at least one" message. */
    method RemoveImage(index: nat)
      requires index < |images|
      modifies this`images, this`mainImage, this`deletedImages, this`errors
      ensures images == RemoveAt(old(images), index)
      ensures mainImage == MainAfterRemoval(old(mainImage), index, |images|)
      ensures var m := old(images[index]);
        deletedImages == if isEditMode && m.key != "" && m.tempKey != "" && !IsNewImage(m)
          then old(deletedImages) + [m.key] else old(deletedImages)
      ensures images == [] ==> errors == old(errors).(images := ImagesRequired)
      ensures images != [] ==> errors == old(errors)
      ensures old(MainInRange(mainImage, |images|)) ==> MainInRange(mainImage, |images|)
    {
      var m := images[index];
      if isEditMode && m.key != "" && m.tempKey != "" && !IsNewImage(m) {
        deletedImages := deletedImages + [m.key];
      }
      if MainInRange(mainImage, |images|) {
        MainImageAfterRemoval(images, mainImage, index);
      }
      images := RemoveAt(images, index);
      mainImage := MainAfterRemoval(mainImage, index, |images|);
      if |images| == 0 {
        errors := errors.(images := ImagesRequired);
      }
    }

    /** The tag checkbox: a checked tag is appended, an unchecked one removed
        everywhere. */
    method ToggleTag(tag: string, checked: bool)
      modifies this`selectedTags
      ensures selectedTags == if checked then old(selectedTags) + [tag] else RemoveAll(old(selectedTags), tag)
    {
      if checked {
        selectedTags := selectedTags + [tag];
      } else {
        selectedTags := RemoveAll(selectedTags, tag);
      }
    }

    /** `clearForm`: every field back to its initial value, `isActive` to
        true; the row being edited is not reset. */
    method ClearForm()
      modifies this
      ensures Contents() == ClearedContents(old(editingIndex)) && errors == NoErrors
    {
      ClearDetails();
      ClearRows();
      ClearMedia();
    }

    /** The text fields and the active flag of `clearForm`. */
    method ClearDetails()
      modifies this`productName, this`description, this`price, this`sale, this`isActive
      ensures productName == "" && description == "" && isActive
      ensures price == NumberInput("", None) && sale == NumberInput("", None)
    {
      productName, description := "", "";
      price, sale := NumberInput("", None), NumberInput("", None);
      isActive := true;
    }

    /** The rows, the row inputs, the errors and the tags of `clearForm`. */
    method ClearRows()
      modifies this`combinations, this`currentSize, this`currentQuantity, this`errors, this`selectedTags
      ensures combinations == [] && currentSize == "" && currentQuantity == ""
      ensures errors == NoErrors && selectedTags == []
    {
      combinations, currentSize, currentQuantity := [], "", "";
      errors, selectedTags := NoErrors, [];
    }

    /** The media fields of `clearForm`. */
    method ClearMedia()
      modifies this`images, this`videos, this`mainImage, this`deletedImages
      ensures images == [] && videos == [] && mainImage.None? && deletedImages == []
    {
      images, videos, mainImage, deletedImages := [], [], None, [];
    }

    /** `p` is the payload `handleSubmit` builds from the current fields.
        All rows go into one group of colour "const", in order, which
        `Object.values` leaves alone; the name is trimmed and the HTML
        description sent as it is; an empty sale is sent as 0; only new
        pictures and videos are sent as files; `id` and `deletedImages` go
        with the edit request only; `isActive` is sent as it stands. */
    predicate IsPayload(p: Submission)
      reads this
    {
      && p.id == (if isEditMode then productId else None)
      && p.name == Trim(productName) && p.description == description
      && p.price == price.parsed && p.sale == SaleValue(sale)
      && p.properties == (if combinations == [] then [] else [PropertyGroup(ConstColor, Entries(combinations))])
      && p.tags == selectedTags
      && p.mainImage == mainImage && p.mainVideo == (if |videos| > 0 then Some(0) else None)
      && p.images == FilesOf(Filter(images, IsNewImage))
      && p.videos == FilesOf(Filter(videos, IsNewVideo))
      && p.deletedImages == (if isEditMode then Some(deletedImages) else None)
      && p.isActive == isActive
    }

    /** The payload `handleSubmit` builds from a valid form. */
    method Payload() returns (p: Submission)
      ensures IsPayload(p)
    {
      var rows := Recolor(combinations, ConstColor);
      ConstColorSent(combinations);
      var groups := GroupCombinations(rows);
      p := Submission(
        id := if isEditMode then productId else None,
        name := Trim(productName),
        description := description,
        price := price.parsed,
        sale := SaleValue(sale),
        properties := ObjectValues(groups.value),
        tags := selectedTags,
        mainImage := mainImage,
        mainVideo := if |videos| > 0 then Some(0) else None,
        images := FilesOf(Filter(images, IsNewImage)),
        videos := FilesOf(Filter(videos, IsNewVideo)),
        deletedImages := if isEditMode then Some(deletedImages) else None,
        isActive := isActive);
    }

    /** `handleSubmit`: the form is sent exactly when it is valid, and the
        errors are always those `validateForm` computes; a successful
        request clears the form, and otherwise every other field is kept. */
    method Submit(requestSucceeds: bool) returns (sent: Option<Submission>, isValid: bool)
      modifies this
      ensures isValid <==> old(CurrentErrors()) == NoErrors
      ensures sent.Some? <==> isValid
      ensures errors == old(CurrentErrors())
      ensures sent.Some? ==> old(combinations) != []
      ensures sent.Some? ==> old(IsPayload(sent.value))
      ensures sent.Some? ==> sent.value.properties == [PropertyGroup(ConstColor, Entries(old(combinations)))]
      ensures sent.Some? && requestSucceeds ==> Contents() == ClearedContents(old(editingIndex))
      ensures sent.None? || !requestSucceeds ==> Contents() == old(Contents())
    {
      isValid := ValidateForm();
      if !isValid {
        return None, false;
      }
      var p := Payload();
      sent := Some(p);
      if requestSucceeds {
        ClearForm();
      }
    }
  }
}
