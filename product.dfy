/** Catalogue products and the category enumeration. */
module Products {
  import opened Wrappers
  import opened Text
  import opened Money
  import opened Errors

  /** The two product categories. */
  datatype ProductCategory = Fuel | Shop

  /** A catalogue product. Values are built by `NewProduct` and never change. */
  datatype Product = Product(productId: string, name: string, category: ProductCategory, unitPrice: real)
  {
    /** What the constructor guarantees of every product that exists. */
    predicate Valid() {
      !IsBlank(productId) && !IsBlank(name) && unitPrice >= 0.0
    }

    /** The exact price of `quantity` units, without rounding. */
    function LineTotal(quantity: int): real {
      unitPrice * quantity as real
    }

    /** `CalculateLineTotal`: a negative quantity is rejected; otherwise the exact line total. */
    function CalculateLineTotal(quantity: int): (r: Result<real, Error>)
      ensures r.Failure? <==> quantity < 0
      ensures r.Failure? ==> r.error == Argument("Quantity cannot be negative.", Some("quantity"))
      ensures r.Success? ==> r.value == LineTotal(quantity)
    {
      if quantity < 0 then Failure(Argument("Quantity cannot be negative.", Some("quantity")))
      else Success(LineTotal(quantity))
    }

    /** `BelongsToCategory`. */
    function BelongsToCategory(c: ProductCategory): (b: bool)
      ensures b <==> category == c
    {
      category == c
    }
  }

  /** The `Product` constructor: the checks in order, then the stored fields. */
  function NewProduct(productId: string, name: string, category: ProductCategory, unitPrice: real): (r: Result<Product, Error>)
    ensures r.Success? <==> !IsBlank(productId) && !IsBlank(name) && unitPrice >= 0.0
    ensures r.Success? ==> r.value.Valid() && r.value == Product(productId, name, category, unitPrice)
    ensures IsBlank(productId) ==> r == Failure(Argument("Product ID cannot be empty.", Some("productId")))
    ensures !IsBlank(productId) && IsBlank(name) ==> r == Failure(Argument("Product name cannot be empty.", Some("name")))
    ensures !IsBlank(productId) && !IsBlank(name) && unitPrice < 0.0
      ==> r == Failure(Argument("Unit price cannot be negative.", Some("unitPrice")))
  {
    if IsBlank(productId) then Failure(Argument("Product ID cannot be empty.", Some("productId")))
    else if IsBlank(name) then Failure(Argument("Product name cannot be empty.", Some("name")))
    else if unitPrice < 0.0 then Failure(Argument("Unit price cannot be negative.", Some("unitPrice")))
    else Success(Product(productId, name, category, unitPrice))
  }

  /** The line total of a valid product is never negative, grows with the quantity and is zero for quantity zero. */
  lemma LineTotalMonotone(p: Product, q: int, q': int)
    requires p.Valid() && 0 <= q <= q'
    ensures 0.0 <= p.LineTotal(q) <= p.LineTotal(q')
    ensures p.LineTotal(0) == 0.0
  {
    assert p.LineTotal(q') - p.LineTotal(q) == p.unitPrice * (q' - q) as real;
    assert p.unitPrice * (q' - q) as real >= 0.0;
    assert p.unitPrice * q as real >= 0.0;
  }

  /** A unit price in whole cents gives line totals in whole cents. */
  lemma LineTotalInCents(p: Product, q: int)
    requires IsCents(p.unitPrice)
    ensures IsCents(p.LineTotal(q))
  {
    CentsTimesInt(p.unitPrice, q);
    var x := p.unitPrice * q as real;
    assert IsCents(x);
    assert p.LineTotal(q) == x;
  }
}
