/** The edit-product slice of the Redux store: the product being edited and
    the progress of its update request. */
module EditProductSlice {
  import opened Text

  /** The slice's state, `{ product, loading, error }`; `P` is the product
      record and `E` the error value the failure action carries. */
  datatype EditState<P, E> = EditState(product: Option<P>, loading: bool, error: Option<E>)

  /** The initial state: no product, not loading, no error. */
  function Initial<P, E>(): (s: EditState<P, E>)
    ensures s.product.None? && !s.loading && s.error.None?
  {
    EditState(None, false, None)
  }

  /** `setProductForEdit(product)`: stores the product and clears the request
      state. */
  function WithProduct<P, E>(s: EditState<P, E>, p: P): (r: EditState<P, E>)
    ensures r.product == Some(p) && !r.loading && r.error.None?
  {
    EditState(Some(p), false, None)
  }

  /** `clearProduct()`: only the product is dropped. */
  function Cleared<P, E>(s: EditState<P, E>): (r: EditState<P, E>)
    ensures r.product.None? && r.loading == s.loading && r.error == s.error
  {
    s.(product := None)
  }

  /** `updateProductStart()`: the request is in flight and the error is
      cleared; the product stays. */
  function Started<P, E>(s: EditState<P, E>): (r: EditState<P, E>)
    ensures r.loading && r.error.None? && r.product == s.product
  {
    s.(loading := true, error := None)
  }

  /** `updateProductSuccess(product)`: the request is over and the product is
      the server's copy; the error is left as it was. */
  function Succeeded<P, E>(s: EditState<P, E>, p: P): (r: EditState<P, E>)
    ensures !r.loading && r.product == Some(p) && r.error == s.error
  {
    s.(loading := false, product := Some(p))
  }

  /** `updateProductFailure(error)`: the request is over and the error is
      recorded; the product stays. */
  function Failed<P, E>(s: EditState<P, E>, e: E): (r: EditState<P, E>)
    ensures !r.loading && r.error == Some(e) && r.product == s.product
  {
    s.(loading := false, error := Some(e))
  }

  /** A request that starts and then succeeds or fails leaves the slice not
      loading: after success it holds the server's product and no error, after
      failure the old product and the failure's error. */
  lemma RequestSettles<P, E>(s: EditState<P, E>, ok: bool, p: P, e: E)
    ensures var r := if ok then Succeeded(Started(s), p) else Failed(Started(s), e);
      && !r.loading
      && (ok ==> r.product == Some(p) && r.error.None?)
      && (!ok ==> r.product == s.product && r.error == Some(e))
  {
  }

  /** Clearing the product does not interrupt a request in flight. */
  lemma ClearKeepsRequest<P, E>(s: EditState<P, E>)
    ensures Cleared(Started(s)).loading && Cleared(Started(s)).error.None?
    ensures Cleared(Cleared(s)) == Cleared(s)
  {
  }

  class EditProductStore<P, E> {
    var product: Option<P>
    var loading: bool
    var error: Option<E>

    function Snapshot(): EditState<P, E>
      reads this
    {
      EditState(product, loading, error)
    }

    constructor ()
      ensures Snapshot() == Initial()
    {
      product := None;
      loading := false;
      error := None;
    }

    method SetProductForEdit(p: P)
      modifies this
      ensures Snapshot() == WithProduct(old(Snapshot()), p)
    {
      product := Some(p);
      loading := false;
      error := None;
    }

    method ClearProduct()
      modifies this`product
      ensures Snapshot() == Cleared(old(Snapshot()))
    {
      product := None;
    }

    method UpdateProductStart()
      modifies this`loading, this`error
      ensures Snapshot() == Started(old(Snapshot()))
    {
      loading := true;
      error := None;
    }

    method UpdateProductSuccess(p: P)
      modifies this`loading, this`product
      ensures Snapshot() == Succeeded(old(Snapshot()), p)
    {
      loading := false;
      product := Some(p);
    }

    method UpdateProductFailure(e: E)
      modifies this`loading, this`error
      ensures Snapshot() == Failed(old(Snapshot()), e)
    {
      loading := false;
      error := Some(e);
    }
  }
}
