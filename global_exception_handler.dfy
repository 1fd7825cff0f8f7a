/**
 * The API's exception-to-response mapping: each error kind gets a status code,
 * an error type and a message, and JSON reader errors get their message rewritten.
 */
module GlobalExceptionHandler {
  import opened Wrappers
  import opened Text
  import opened Errors

  /** The error body: its `type`, its `message` and, for validation errors only, the error map. */
  datatype ErrorResponse = ErrorResponse(kind: string, message: string, errors: Option<ErrorGroups>)

  const Status400BadRequest := 400
  const Status500InternalServerError := 500

  const MissingPropertiesMarker := "missing required properties"
  const IncludingMarker := "including:"
  const NotConvertedMarker := "could not be converted"
  const MissingFieldsPrefix := "Missing required field(s): "
  const InvalidTypeMessage := "Invalid value type in request. Please check the data types of your fields."
  const InvalidFormatPrefix := "Invalid request format: "
  const InternalErrorMessage := "An unexpected error occurred. Please try again later."

  /** `r` is `tail[i..j]` with only white space before `i` and only white space or dots from `j` on. */
  predicate CleanedSliceAt(tail: string, r: string, i: int, j: int) {
    0 <= i <= j <= |tail| && r == tail[i..j]
    && (forall m :: 0 <= m < i ==> IsWhiteSpace(tail[m]))
    && (forall m :: j <= m < |tail| ==> IsWhiteSpace(tail[m]) || tail[m] == '.')
  }

  /** Trimming trailing white space and then trailing dots keeps a prefix and drops only white space and dots. */
  lemma TrimEndsKeepPrefix(s: string)
    ensures var r := TrimEndChar(TrimEnd(s), '.');
      && r == s[..|r|]
      && (forall m :: |r| <= m < |s| ==> IsWhiteSpace(s[m]) || s[m] == '.')
      && (r == [] || r[0] == s[0])
  {
    var trimmed := TrimEnd(s);
    var r := TrimEndChar(trimmed, '.');
    assert r == trimmed[..|r|];
    forall m | |r| <= m < |s| ensures IsWhiteSpace(s[m]) || s[m] == '.' {
      if m < |trimmed| {
        assert trimmed[m] == s[m];
      }
    }
  }

  /** The tail trimmed of white space and then of trailing dots is such a slice of it. */
  lemma CleanedTailIsSlice(tail: string)
    ensures exists i, j :: CleanedSliceAt(tail, TrimEndChar(Trim(tail), '.'), i, j)
  {
    var front := TrimStart(tail);
    var i := |tail| - |front|;
    assert front == tail[i..];
    var r := TrimEndChar(TrimEnd(front), '.');
    assert r == TrimEndChar(Trim(tail), '.');
    TrimEndsKeepPrefix(front);
    var j := i + |r|;
    assert r == front[..|r|];
    forall m | j <= m < |tail| ensures IsWhiteSpace(tail[m]) || tail[m] == '.' {
      assert tail[m] == front[m - i];
    }
    assert r == tail[i..j];
    assert CleanedSliceAt(tail, r, i, j);
  }

  /** The cleaned tail starts with no white space and ends with no dot. */
  lemma CleanedTailEnds(tail: string)
    ensures var r := TrimEndChar(Trim(tail), '.');
      r == [] || (!IsWhiteSpace(r[0]) && r[|r| - 1] != '.')
  {
    var front := TrimStart(tail);
    TrimEndsKeepPrefix(front);
  }

  /**
   * The property list after `including:` found at `start`: the rest of the message,
   * trimmed of white space at both ends and then of every trailing dot.
   */
  function PropertiesPart(message: string, start: nat): (r: string)
    requires start + |IncludingMarker| <= |message|
    ensures var tail := message[start + |IncludingMarker|..];
      exists i, j :: CleanedSliceAt(tail, r, i, j)
    ensures r == [] || (!IsWhiteSpace(r[0]) && r[|r| - 1] != '.')
    ensures r == TrimEndChar(Trim(message[start + |IncludingMarker|..]), '.')
  {
    var tail := message[start + |IncludingMarker|..];
    CleanedTailIsSlice(tail);
    CleanedTailEnds(tail);
    TrimEndChar(Trim(tail), '.')
  }

  /** The message is about missing required properties and names them after `including:`. */
  predicate ListsMissingProperties(message: string) {
    Contains(message, MissingPropertiesMarker) && IndexOfIgnoreCase(message, IncludingMarker) >= 0
  }

  /** `ExtractJsonErrorMessage`: a friendlier message for a JSON reader error. */
  function ExtractJsonErrorMessage(message: string): (r: string)
    ensures ListsMissingProperties(message) ==>
      var k := IndexOfIgnoreCase(message, IncludingMarker);
      r == MissingFieldsPrefix + PropertiesPart(message, k)
    ensures !ListsMissingProperties(message) && Contains(message, NotConvertedMarker) ==> r == InvalidTypeMessage
    ensures !ListsMissingProperties(message) && !Contains(message, NotConvertedMarker) ==> r == InvalidFormatPrefix + message
  {
    if Contains(message, MissingPropertiesMarker) && IndexOfIgnoreCase(message, IncludingMarker) >= 0 then
      MissingFieldsPrefix + PropertiesPart(message, IndexOfIgnoreCase(message, IncludingMarker))
    else if Contains(message, NotConvertedMarker) then
      InvalidTypeMessage
    else
      InvalidFormatPrefix + message
  }

  /** `MapBadHttpRequestException`: 400 "BadRequestError", with the JSON error's rewritten message when there is one. */
  function MapBadHttpRequestException(text: string, inner: InnerException): (r: (int, ErrorResponse))
    ensures r.0 == Status400BadRequest && r.1.kind == "BadRequestError" && r.1.errors.None?
    ensures inner.JsonError? ==> r.1.message == ExtractJsonErrorMessage(inner.jsonMessage)
    ensures !inner.JsonError? ==> r.1.message == text
  {
    var errorMessage := match inner
      case JsonError(m) => ExtractJsonErrorMessage(m)
      case _ => text;
    (Status400BadRequest, ErrorResponse("BadRequestError", errorMessage, None))
  }

  /** `MapException`: the status code and body for an exception, chosen by its type in declaration order. */
  function MapException(e: Error): (r: (int, ErrorResponse))
    ensures r.0 == Status400BadRequest || r.0 == Status500InternalServerError
    ensures r.0 == Status500InternalServerError <==> e.Unexpected?
    ensures r.1.errors.Some? <==> e.Validation?
    ensures e.BadHttpRequest? ==> r == MapBadHttpRequestException(e.text, e.inner)
    ensures e.Validation? ==> r.1 == ErrorResponse("ValidationError", ValidationMessage, Some(e.errors))
    ensures e.NotFound? ==> r.1 == ErrorResponse("NotFoundError", e.Message(), None)
    ensures e.OverlappingDiscounts? ==> r.1 == ErrorResponse("DomainError", e.Message(), None)
    ensures e.IsArgumentError() ==> r.1 == ErrorResponse("ArgumentError", e.Message(), None)
    ensures e.Unexpected? ==> r.1 == ErrorResponse("InternalError", InternalErrorMessage, None)
  {
    match e
    case BadHttpRequest(t, inner) => MapBadHttpRequestException(t, inner)
    case Validation(errors) =>
      (Status400BadRequest, ErrorResponse("ValidationError", ValidationMessage, Some(errors)))
    case NotFound(_, _) =>
      (Status400BadRequest, ErrorResponse("NotFoundError", e.Message(), None))
    case OverlappingDiscounts(_, _) =>
      (Status400BadRequest, ErrorResponse("DomainError", e.Message(), None))
    case ArgumentNull(_) =>
      (Status400BadRequest, ErrorResponse("ArgumentError", e.Message(), None))
    case Argument(_, _) =>
      (Status400BadRequest, ErrorResponse("ArgumentError", e.Message(), None))
    case Unexpected(_) =>
      (Status500InternalServerError, ErrorResponse("InternalError", InternalErrorMessage, None))
  }

  /** Only an unexpected error is a server error; every error the core raises itself is a 400. */
  lemma ServerErrorOnlyForUnexpected(e: Error)
    ensures MapException(e).0 >= 500 <==> e.Unexpected?
  {
  }

  /** An unexpected error's response does not depend on the exception, so nothing of it leaks to the client. */
  lemma InternalErrorsRevealNothing(a: string, b: string)
    ensures MapException(Unexpected(a)) == MapException(Unexpected(b))
    ensures MapException(Unexpected(a)).1.message != a || a == InternalErrorMessage
  {
  }

  /** Each error kind has its own response type, so a client can tell them apart by `type` alone. */
  lemma ResponseTypeIdentifiesKind(e: Error, f: Error)
    requires MapException(e).1.kind == MapException(f).1.kind
    ensures e.Validation? <==> f.Validation?
    ensures e.NotFound? <==> f.NotFound?
    ensures e.OverlappingDiscounts? <==> f.OverlappingDiscounts?
    ensures e.IsArgumentError() <==> f.IsArgumentError()
    ensures e.BadHttpRequest? <==> f.BadHttpRequest?
  {
  }
}
