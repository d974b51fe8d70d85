/** Shared wrappers: optional values, results, and the errors the services raise. */
module Common {

  datatype Option<+T> = None | Some(value: T)

  datatype Result<+T> = Success(value: T) | Failure(error: Error)

  /** The exceptions of the modelled services, one constructor per raise site. */
  datatype Error =
    | DocumentNotFound     // extract_text: the uploaded PDF does not exist
    | MetadataNotFound     // get_metadata: no stored metadata for the document
    | ExtractionFailed     // both PDF parsers raised
    | ZeroStride           // range(0, n, 0) raises ValueError
    | ResultIndexOutOfRange  // the vector store's result lists are not parallel

  function OrElse<T>(o: Option<T>, default: T): (r: T)
    ensures o.Some? ==> r == o.value
    ensures o.None? ==> r == default
  {
    match o
    case Some(v) => v
    case None => default
  }

  // Sequence algebra, stated once for any element type so that proofs about
  // sequences of rich records need not unfold the records.

  /** Concatenation is associative.  Called rather than asserted in place
      because a lemma with this small context proves it far more cheaply
      than a proof with many recursive definitions in scope. */
  lemma AppendAssoc<T>(a: seq<T>, b: seq<T>, c: seq<T>)
    ensures (a + b) + c == a + (b + c)
  {
  }

  /** Dropping the last element of a + b drops the last element of b. */
  lemma AppendDropLast<T>(a: seq<T>, b: seq<T>)
    requires |b| > 0
    ensures (a + b)[..|a + b| - 1] == a + b[..|b| - 1]
    ensures (a + b)[|a + b| - 1] == b[|b| - 1]
  {
  }
}
