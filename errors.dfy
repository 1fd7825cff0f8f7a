/**
 * The exceptions the core throws, as one closed set of variants. Each variant
 * carries the data its C# exception carries and renders the same `Message`.
 */
module Errors {
  import opened Wrappers
  import opened Text

  /** A validation error map: property names with their messages, in insertion order. */
  type ErrorGroups = seq<(string, seq<string>)>

  /** The inner exception of a `BadHttpRequestException`. */
  datatype InnerException = JsonError(jsonMessage: string) | OtherInner | NoInner

  datatype Error =
      /** `ArgumentNullException` for the named parameter. */
    | ArgumentNull(nullParamName: string)
      /** `ArgumentException(text, paramName)`; `paramName` may be absent. */
    | Argument(text: string, paramName: Option<string>)
      /** `DomainException` raised when a product is covered by several active discount promotions. */
    | OverlappingDiscounts(productId: string, promotionIds: seq<string>)
      /** `NotFoundException(entityName, key)`. */
    | NotFound(entityName: string, key: string)
      /** `ValidationException` with its error map. */
    | Validation(errors: ErrorGroups)
      /** `BadHttpRequestException` raised while reading the request body. */
    | BadHttpRequest(text: string, inner: InnerException)
      /** Any other exception. */
    | Unexpected(text: string)
  {
    /** `Exception.Message`, as each exception type composes it. */
    function Message(): string {
      match this
      case ArgumentNull(p) => "Value cannot be null. (Parameter '" + p + "')"
      case Argument(t, p) => if p.Some? then t + " (Parameter '" + p.value + "')" else t
      case OverlappingDiscounts(id, ps) =>
        OverlapOpening + id + OverlapListIntro + Join(", ", ps) + OverlapClosing
      case NotFound(e, k) => e + NotFoundKeyOpening + k + NotFoundClosing
      case Validation(_) => ValidationMessage
      case BadHttpRequest(t, _) => t
      case Unexpected(t) => t
    }

    /** The exception is an `ArgumentException` (including its `ArgumentNullException` subtype). */
    predicate IsArgumentError() {
      ArgumentNull? || Argument?
    }
  }

  /** The fixed parts of the overlapping-discounts message, around the product id and the promotion ids. */
  const OverlapOpening := "Product '"
  const OverlapListIntro := "' is covered by multiple active discount promotions: "
  const OverlapClosing := ". Only one discount promotion should be active for a product at any given time."

  /** The fixed parts of the not-found message, around the entity name and the key. */
  const NotFoundKeyOpening := " with key '"
  const NotFoundClosing := "' was not found."

  /** The message every `ValidationException` carries. */
  const ValidationMessage := "One or more validation errors occurred."

  /** The `ArgumentException` that `Dictionary.Add` (and so `ToDictionary`) throws on a repeated key. */
  function DuplicateKey(key: string): Error {
    Argument("An item with the same key has already been added. Key: " + key, None)
  }

  /**
   * Each message carries the data of its exception: the parameter name of an
   * argument error, the entity name and key of a not-found error; the other
   * kinds pass their text through unchanged.
   */
  lemma MessageNamesItsData(e: Error)
    ensures e.ArgumentNull? ==> Contains(e.Message(), e.nullParamName)
    ensures e.Argument? ==> e.text <= e.Message()
    ensures e.Argument? && e.paramName.Some? ==> Contains(e.Message(), e.paramName.value)
    ensures e.Argument? && e.paramName.None? ==> e.Message() == e.text
    ensures e.NotFound? ==> e.entityName <= e.Message() && Contains(e.Message(), e.key)
    ensures e.Validation? ==> e.Message() == ValidationMessage
    ensures e.BadHttpRequest? ==> e.Message() == e.text
    ensures e.Unexpected? ==> e.Message() == e.text
  {
    match e
    case ArgumentNull(p) =>
      NamedBetween("Value cannot be null. (Parameter '", p, "')");
    case Argument(t, p) =>
      if p.Some? {
        NamedBetween(t + " (Parameter '", p.value, "')");
      }
    case NotFound(n, k) =>
      NamedBetween(n + NotFoundKeyOpening, k, NotFoundClosing);
    case _ =>
  }

  /** A text put between two others occurs in the result, which starts with the first. */
  lemma NamedBetween(a: string, b: string, c: string)
    ensures Contains(a + b + c, b) && a <= a + b + c
  {
    assert OccursAt(b, b, 0);
    ContainsInMiddle(a, b, c, b);
  }
}
