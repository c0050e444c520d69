/** The edit page: the colour-size form filled from the product held by the
    edit-product slice, and the update request reported back to that slice. */
module EditProductPage {
  import opened Text
  import opened Catalog
  import opened Media
  import opened FormChecks
  import opened EditProductSlice
  import opened AddProductPage
  import opened ObjectOrder

  /** A stored `images.mainImage`: missing from the record, null, or an
      index. */
  datatype StoredMain = Missing | Null | Stored(index: int)

  /** The product record the slice holds, as the form reads it. Missing
      names and descriptions are empty; prices are the text `toString` gives;
      pictures and videos are the `File`s the form builds from the stored
      key, type and size. */
  datatype StoredProduct = StoredProduct(
    id: string, name: string, description: string, price: NumberInput, sale: NumberInput,
    images: seq<File>, videos: seq<File>, mainImage: StoredMain, tags: seq<string>,
    properties: seq<PropertyGroup>)

  /** The `mainImage` the form starts with: the stored value whenever the
      record has one, a stored null included; only a missing value falls
      back to 0 when there are pictures, or to null. */
  function InitialMainImage(p: StoredProduct): (m: Option<int>)
    ensures p.mainImage.Stored? ==> m == Some(p.mainImage.index)
    ensures p.mainImage.Null? ==> m.None?
    ensures p.mainImage.Missing? ==> (m.Some? <==> |p.images| > 0) && MainInRange(m, |p.images|)
  {
    match p.mainImage
    case Stored(i) => Some(i)
    case Null => None
    case Missing => if |p.images| > 0 then Some(0) else None
  }

  lemma FlattenSnoc(gs: seq<PropertyGroup>, g: PropertyGroup)
    ensures Flatten(gs + [g]) == Flatten(gs) + Expand(g)
  {
    assert (gs + [g])[..|gs|] == gs;
  }

  /** The nested `forEach` of the populate effect: one row per size of each
      group, group by group and size by size. */
  method FlattenGroups(props: seq<PropertyGroup>) returns (rows: seq<Combination>)
    ensures rows == Flatten(props)
  {
    rows := [];
    var i := 0;
    while i < |props|
      invariant 0 <= i <= |props|
      invariant rows == Flatten(props[..i])
    {
      rows := AppendGroupRows(rows, props[i]);
      FlattenSnoc(props[..i], props[i]);
      assert props[..i + 1] == props[..i] + [props[i]];
      i := i + 1;
    }
    assert props[..i] == props;
  }

  /** The inner `forEach`: a row per size of one group, appended in order. */
  method AppendGroupRows(rows: seq<Combination>, g: PropertyGroup) returns (longer: seq<Combination>)
    ensures longer == rows + Expand(g)
  {
    longer := rows;
    var j := 0;
    while j < |g.sizes|
      invariant 0 <= j <= |g.sizes|
      invariant longer == rows + Expand(g)[..j]
    {
      var row := Combination(g.color, g.sizes[j].size, g.sizes[j].quantity);
      assert Expand(g)[..j + 1] == Expand(g)[..j] + [row];
      longer := longer + [row];
      j := j + 1;
    }
    assert Expand(g)[..j] == Expand(g);
  }

  /** The populate effect: the fields are copied from the product and the
      nested `forEach` flattens its groups into rows, group by group and size
      by size. */
  method Populate(form: ColorSizeForm, product: StoredProduct)
    modifies form`productName, form`description, form`price, form`sale, form`images, form`videos
    modifies form`mainImage, form`selectedTags, form`combinations
    ensures form.productName == product.name && form.description == product.description
    ensures form.price == product.price && form.sale == product.sale
    ensures form.images == product.images && form.videos == product.videos
    ensures form.mainImage == InitialMainImage(product) && form.selectedTags == product.tags
    ensures form.combinations == Flatten(product.properties)
  {
    form.productName := product.name;
    form.description := product.description;
    form.price := product.price;
    form.sale := product.sale;
    form.images := product.images;
    form.videos := product.videos;
    form.mainImage := InitialMainImage(product);
    form.selectedTags := product.tags;
    var rows := FlattenGroups(product.properties);
    form.combinations := rows;
  }

  /** Stored groups as a submit leaves them: distinct colours, no empty
      group, no quantity left as raw text, and no colour named like an
      inherited property (the `reduce` would have thrown on it). */
  predicate WellFormedGroups(gs: seq<PropertyGroup>)
  {
    && DistinctColors(gs)
    && forall j :: 0 <= j < |gs| ==> |gs[j].sizes| > 0 && IsStored(gs[j]) && gs[j].color !in InheritedKeys
  }

  /** `handleSubmit` of the edit page: the form is sent exactly when it is
      valid and the `reduce` does not throw, and the slice is untouched
      otherwise; the payload carries the stored product's id, the slice
      records the request starting, and then its success (the server's
      product) or its failure (the message). */
  method SubmitUpdate(form: ColorSizeForm, store: EditProductStore<StoredProduct, string>,
                      requestSucceeds: bool, response: StoredProduct, failure: string)
    returns (sent: Option<ProductPayload>)
    requires store.product.Some?
    modifies form`errors, store
    ensures sent.Some? <==> old(form.CurrentErrors()) == NoErrors && !InheritsColor(form.combinations)
    ensures form.errors == old(form.CurrentErrors())
    ensures sent.None? ==> store.Snapshot() == old(store.Snapshot())
    ensures sent.Some? ==> sent.value.id == Some(old(store.product).value.id)
    ensures sent.Some? ==> form.IsPayload(sent.value, Some(old(store.product).value.id))
    ensures sent.Some? ==> Some(sent.value.properties) == SentProperties(form.combinations)
    ensures sent.Some? ==> !store.loading
    ensures sent.Some? && requestSucceeds ==> store.product == Some(response) && store.error.None?
    ensures sent.Some? && !requestSucceeds ==> store.product == old(store.product) && store.error == Some(failure)
    ensures sent.Some? && WellFormedGroups(old(store.product).value.properties)
        && form.combinations == Flatten(old(store.product).value.properties)
      ==> sent.value.properties == ObjectValues(old(store.product).value.properties)
  {
    var isValid := form.ValidateForm();
    if !isValid {
      return None;
    }
    var stored := store.product.value;
    var p := form.Payload(Some(stored.id));
    if p.None? {
      return None;
    }
    if WellFormedGroups(stored.properties) && form.combinations == Flatten(stored.properties) {
      SentRoundTrip(stored.properties);
    }
    store.UpdateProductStart();
    if requestSucceeds {
      store.UpdateProductSuccess(response);
    } else {
      store.UpdateProductFailure(failure);
    }
    sent := p;
  }
}
