/** The (product id, quantity) value object and its equality. */
module BasketLineItems {
  import opened Wrappers
  import opened Text
  import opened Errors

  /** A basket line: the product id as the customer spelled it and a quantity. */
  datatype BasketLineItem = BasketLineItem(productId: string, quantity: int)
  {
    /** What the constructor guarantees of every line item that exists. */
    predicate Valid() {
      !IsBlank(productId) && quantity > 0
    }

    /**
     * `Equals(BasketLineItem? other)`: false for null, and otherwise ordinal
     * (case-sensitive) equality of the ids together with equal quantities.
     */
    function Equals(other: Option<BasketLineItem>): (b: bool)
      ensures b <==> other == Some(this)
    {
      other.Some? && productId == other.value.productId && quantity == other.value.quantity
    }

    /** `GetHashCode`: a combination of the id's hash and the quantity. */
    function GetHashCode(): int {
      (StringHash(productId) * 31 + quantity) % 0x1_0000_0000
    }
  }

  /** A deterministic hash of a string (the .NET mixing function is not modelled). */
  function StringHash(s: string): int {
    if |s| == 0 then 5381 else (StringHash(s[..|s| - 1]) * 33 + s[|s| - 1] as int) % 0x1_0000_0000
  }

  /** `operator ==`: `object.Equals(left, right)`, true for two nulls, false for one null. */
  function EqualsOperator(left: Option<BasketLineItem>, right: Option<BasketLineItem>): (b: bool)
    ensures b <==> left == right
  {
    if left.None? && right.None? then true
    else if left.None? || right.None? then false
    else left.value.Equals(right)
  }

  /** `operator !=`: the negation of `operator ==`. */
  function NotEqualsOperator(left: Option<BasketLineItem>, right: Option<BasketLineItem>): (b: bool)
    ensures b <==> left != right
  {
    !EqualsOperator(left, right)
  }

  /** The `BasketLineItem` constructor: a blank id or a quantity below one is rejected. */
  function NewBasketLineItem(productId: string, quantity: int): (r: Result<BasketLineItem, Error>)
    ensures r.Success? <==> !IsBlank(productId) && quantity > 0
    ensures IsBlank(productId) ==> r == Failure(Argument("Product ID cannot be empty.", Some("productId")))
    ensures !IsBlank(productId) && quantity <= 0
      ==> r == Failure(Argument("Quantity must be greater than zero.", Some("quantity")))
    ensures r.Success? ==> r.value.Valid() && r.value == BasketLineItem(productId, quantity)
  {
    if IsBlank(productId) then Failure(Argument("Product ID cannot be empty.", Some("productId")))
    else if quantity <= 0 then Failure(Argument("Quantity must be greater than zero.", Some("quantity")))
    else Success(BasketLineItem(productId, quantity))
  }

  /**
   * Equality is an equivalence that never holds of null, `==` is symmetric,
   * `!=` is its negation, and equal items hash alike.
   */
  lemma EqualityLaws(a: BasketLineItem, b: BasketLineItem, x: Option<BasketLineItem>, y: Option<BasketLineItem>)
    ensures a.Equals(Some(a)) && !a.Equals(None)
    ensures a.Equals(Some(b)) <==> b.Equals(Some(a))
    ensures EqualsOperator(x, y) <==> EqualsOperator(y, x)
    ensures NotEqualsOperator(x, y) <==> !EqualsOperator(x, y)
    ensures a.Equals(Some(b)) ==> a.GetHashCode() == b.GetHashCode()
  {
  }

  /** Ids that differ only in case make different line items. */
  lemma EqualsIsCaseSensitive()
    ensures !BasketLineItem("PRD01", 1).Equals(Some(BasketLineItem("prd01", 1)))
  {
    assert "PRD01"[0] != "prd01"[0];
  }
}
