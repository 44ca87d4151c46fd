/** Outcome types shared by the modules of the model. */
module Results {

  /** An optional value, used for Python lookups that may fail. */
  datatype Option<+T> = None | Some(value: T)

  /** The value of an operation, or the error the Python code would raise. */
  datatype Result<+T, +E> = Ok(value: T) | Err(error: E)

  /**
   * A Python loop that converts the items of a list one by one, in order: the first
   * conversion that raises ends the loop with its error; otherwise every item has
   * been replaced by its converted value.
   */
  function ConvertEach<A, B, E>(xs: seq<A>, convert: A -> Result<B, E>): (r: Result<seq<B>, E>)
    ensures r.Ok? ==> |r.value| == |xs|
  {
    if xs == [] then Ok([])
    else
      match ConvertEach(xs[..|xs| - 1], convert)
      case Err(e) => Err(e)
      case Ok(vs) =>
        match convert(xs[|xs| - 1])
        case Err(e) => Err(e)
        case Ok(v) => Ok(vs + [v])
  }

  /**
   * The conversion succeeds exactly when every item converts, and then holds each
   * item's value in place; otherwise it fails with the error of the first item
   * that does not convert.
   */
  lemma {:induction false} ConvertEachSpec<A, B, E>(xs: seq<A>, convert: A -> Result<B, E>)
    ensures var r := ConvertEach(xs, convert);
      (r.Ok? <==> forall i :: 0 <= i < |xs| ==> convert(xs[i]).Ok?) &&
      (r.Ok? ==> forall i :: 0 <= i < |xs| ==> convert(xs[i]) == Ok(r.value[i])) &&
      (r.Err? ==>
        exists i :: 0 <= i < |xs| && convert(xs[i]) == Err(r.error) &&
                    forall j :: 0 <= j < i ==> convert(xs[j]).Ok?)
  {
    if xs != [] {
      var n := |xs| - 1;
      var front := xs[..n];
      ConvertEachSpec(front, convert);
      assert forall i :: 0 <= i < n ==> front[i] == xs[i];
    }
  }

  /** Converting one more item extends the converted prefix by that item's value. */
  lemma ConvertEachStep<A, B, E>(xs: seq<A>, k: nat, convert: A -> Result<B, E>, done: seq<B>, v: B)
    requires k < |xs| && ConvertEach(xs[..k], convert) == Ok(done) && convert(xs[k]) == Ok(v)
    ensures ConvertEach(xs[..k + 1], convert) == Ok(done + [v])
  {
    assert xs[..k + 1][..k] == xs[..k];
  }

  /** Once an item fails, converting the whole list fails with that item's error. */
  lemma {:induction false} ConvertEachStops<A, B, E>(xs: seq<A>, k: nat, convert: A -> Result<B, E>, done: seq<B>, e: E)
    requires k < |xs| && ConvertEach(xs[..k], convert) == Ok(done) && convert(xs[k]) == Err(e)
    ensures ConvertEach(xs, convert) == Err(e)
  {
    if k + 1 == |xs| {
      assert xs[..k] == xs[..|xs| - 1];
    } else {
      assert xs[..|xs| - 1][..k] == xs[..k];
      ConvertEachStops(xs[..|xs| - 1], k, convert, done, e);
    }
  }

  /** When every item converts, the result is exactly the list of converted values. */
  lemma ConvertEachAll<A, B, E>(xs: seq<A>, convert: A -> Result<B, E>, ys: seq<B>)
    requires |ys| == |xs| && forall i :: 0 <= i < |xs| ==> convert(xs[i]) == Ok(ys[i])
    ensures ConvertEach(xs, convert) == Ok(ys)
  {
    var r := ConvertEach(xs, convert);
    ConvertEachSpec(xs, convert);
    assert forall i :: 0 <= i < |xs| ==> convert(xs[i]).Ok?;
    forall i | 0 <= i < |xs| ensures r.value[i] == ys[i] {
      assert convert(xs[i]) == Ok(r.value[i]);
    }
    assert r.value == ys;
  }
}
