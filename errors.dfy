/**
 * How the three read/delete handlers of itinerary/itinerary.py turn an
 * exception raised inside their `try` block into the HTTP error they answer
 * with. The handlers' `except` clauses are tried in order; an
 * `HTTPException` raised inside the `try` is itself an `Exception`.
 */
module Errors {
  datatype Handler = ListHandler | GetHandler | DeleteHandler

  /** What a handler's `try` block can raise. */
  datatype Raised =
    | DatabaseError(message: string)
    | ValidationError(message: string)
    | NotFound
    | OtherError(message: string)
  {
    /** `str(e)`; for the `HTTPException(404, "Itinerary not found")` it is "status: detail". */
    function Str(): string {
      match this
      case DatabaseError(m) => m
      case ValidationError(m) => m
      case NotFound => "404: " + NotFoundDetail
      case OtherError(m) => m
    }
  }

  datatype HttpError = HttpError(status: int, detail: string)

  const NotFoundDetail := "Itinerary not found"
  const DatabaseDetail := "Database error occurred"
  const ValidationDetail := "Data validation error"
  const UnexpectedPrefix := "An unexpected error occurred: "

  /** The handler has an `except ValidationError` clause (the delete handler has none). */
  predicate CatchesValidation(h: Handler) {
    h != DeleteHandler
  }

  /**
   * The `except` chain as written (itinerary.py, lines 41-61, 93-113 and
   * 132-145): database errors first, then validation errors where caught,
   * then everything else, including the not-found `HTTPException`.
   */
  function Classify(h: Handler, e: Raised): (r: HttpError)
    ensures e.DatabaseError? ==> r == HttpError(500, DatabaseDetail)
    ensures e.ValidationError? && CatchesValidation(h) ==> r == HttpError(422, ValidationDetail)
    ensures r.status == 500 || r.status == 422
    ensures r.status == 422 <==> e.ValidationError? && CatchesValidation(h)
    ensures (e.OtherError? || e.NotFound? || (e.ValidationError? && !CatchesValidation(h))) ==>
      r == HttpError(500, UnexpectedPrefix + e.Str())
  {
    match e
    case DatabaseError(_) => HttpError(500, DatabaseDetail)
    case ValidationError(_) =>
      if CatchesValidation(h) then HttpError(422, ValidationDetail) else HttpError(500, UnexpectedPrefix + e.Str())
    case _ => HttpError(500, UnexpectedPrefix + e.Str())
  }

  /** The mapping evidently intended: the not-found exception passes through as a 404. */
  function ClassifyIntended(h: Handler, e: Raised): (r: HttpError)
    ensures e.NotFound? ==> r == HttpError(404, NotFoundDetail)
    ensures !e.NotFound? ==> r == Classify(h, e)
  {
    if e.NotFound? then HttpError(404, NotFoundDetail) else Classify(h, e)
  }

  /** As written, a missing slug answers 500 with the re-wrapped 404 text, never 404. */
  lemma NotFoundBecomesServerError(h: Handler)
    ensures Classify(h, NotFound) == HttpError(500, UnexpectedPrefix + "404: " + NotFoundDetail)
    ensures Classify(h, NotFound).status != 404
  {
  }

  /** No exception ever yields a 404 from the handlers as written. */
  lemma NoHandlerAnswers404(h: Handler, e: Raised)
    ensures Classify(h, e).status != 404
  {
  }

  /** The database error's own message never reaches the client. */
  lemma DatabaseDetailHidden(h: Handler, m1: string, m2: string)
    ensures Classify(h, DatabaseError(m1)) == Classify(h, DatabaseError(m2))
  {
  }

  /** The catch-all puts the exception's text into the detail: different texts, different answers. */
  lemma UnexpectedMessageKept(h: Handler, m1: string, m2: string)
    requires Classify(h, OtherError(m1)) == Classify(h, OtherError(m2))
    ensures m1 == m2
  {
    var d1 := Classify(h, OtherError(m1)).detail;
    var d2 := Classify(h, OtherError(m2)).detail;
    assert m1 == d1[|UnexpectedPrefix|..];
    assert m2 == d2[|UnexpectedPrefix|..];
  }

  /** The delete handler reports a validation error as an unexpected one. */
  lemma DeleteValidationIsUnexpected(m: string)
    ensures Classify(DeleteHandler, ValidationError(m)) == HttpError(500, UnexpectedPrefix + m)
    ensures Classify(GetHandler, ValidationError(m)) == HttpError(422, ValidationDetail)
  {
  }

  /** The intended mapping answers 404 exactly for the missing itinerary. */
  lemma IntendedNotFoundIff(h: Handler, e: Raised)
    ensures ClassifyIntended(h, e).status == 404 <==> e.NotFound?
  {
  }
}
