/** The validated, rounded outcome of a basket calculation. */
module CalculationResults {
  import opened Wrappers
  import opened Money
  import opened Errors

  /** The four figures reported for a basket. */
  datatype BasketCalculationResult = BasketCalculationResult(
    totalAmount: real,
    discountApplied: real,
    grandTotal: real,
    pointsEarned: int)
  {
    /** The invariants a result keeps once constructed. */
    predicate Valid() {
      && 0.0 <= discountApplied <= totalAmount
      && 0.0 <= grandTotal
      && IsCents(totalAmount) && IsCents(discountApplied) && IsCents(grandTotal)
      && pointsEarned >= 0
    }
  }

  /**
   * The `BasketCalculationResult` constructor: the raw figures are checked in
   * order, then each money field is rounded half to even to cents. The grand
   * total is rounded from the raw difference, not from the two rounded fields.
   */
  function NewResult(totalAmount: real, discountApplied: real, pointsEarned: int): (r: Result<BasketCalculationResult, Error>)
    ensures r.Success? <==> 0.0 <= discountApplied <= totalAmount && pointsEarned >= 0
    ensures totalAmount < 0.0 ==> r == Failure(Argument("Total amount cannot be negative.", Some("totalAmount")))
    ensures totalAmount >= 0.0 && discountApplied < 0.0
      ==> r == Failure(Argument("Discount applied cannot be negative.", Some("discountApplied")))
    ensures 0.0 <= totalAmount && 0.0 <= discountApplied && totalAmount < discountApplied
      ==> r == Failure(Argument("Discount cannot exceed total amount.", Some("discountApplied")))
    ensures 0.0 <= discountApplied <= totalAmount && pointsEarned < 0
      ==> r == Failure(Argument("Points earned cannot be negative.", Some("pointsEarned")))
    ensures r.Success? ==> r.value.Valid()
    ensures r.Success? ==> r.value.totalAmount == Round2(totalAmount) && r.value.discountApplied == Round2(discountApplied)
    ensures r.Success? ==> r.value.grandTotal == Round2(totalAmount - discountApplied)
    ensures r.Success? ==> r.value.pointsEarned == pointsEarned
  {
    if totalAmount < 0.0 then Failure(Argument("Total amount cannot be negative.", Some("totalAmount")))
    else if discountApplied < 0.0 then Failure(Argument("Discount applied cannot be negative.", Some("discountApplied")))
    else if discountApplied > totalAmount then Failure(Argument("Discount cannot exceed total amount.", Some("discountApplied")))
    else if pointsEarned < 0 then Failure(Argument("Points earned cannot be negative.", Some("pointsEarned")))
    else
      Round2Monotone(discountApplied, totalAmount);
      Round2Monotone(0.0, discountApplied);
      Round2Monotone(0.0, totalAmount - discountApplied);
      Round2OfCents(0.0);
      Success(BasketCalculationResult(
        Round2(totalAmount), Round2(discountApplied), Round2(totalAmount - discountApplied), pointsEarned))
  }

  /** From whole-cent inputs nothing is rounded, so the grand total is exactly total minus discount. */
  lemma GrandTotalIsDifference(totalAmount: real, discountApplied: real, pointsEarned: int)
    requires IsCents(totalAmount) && IsCents(discountApplied)
    requires 0.0 <= discountApplied <= totalAmount && pointsEarned >= 0
    ensures NewResult(totalAmount, discountApplied, pointsEarned).Success?
    ensures var r := NewResult(totalAmount, discountApplied, pointsEarned).value;
      r.totalAmount == totalAmount && r.discountApplied == discountApplied
      && r.grandTotal == r.totalAmount - r.discountApplied
  {
    CentsArithmetic(totalAmount, discountApplied);
    Round2OfCents(totalAmount);
    Round2OfCents(discountApplied);
    Round2OfCents(totalAmount - discountApplied);
  }

  /** From raw 0.015 and 0.01 the fields are 0.02 and 0.01 but the grand total is 0.00. */
  lemma GrandTotalCanDifferFromDifference()
    ensures NewResult(0.015, 0.01, 0).Success?
    ensures var r := NewResult(0.015, 0.01, 0).value;
      r.totalAmount == 0.02 && r.discountApplied == 0.01 && r.grandTotal == 0.0
      && r.grandTotal != r.totalAmount - r.discountApplied
  {
    assert (1.5).Floor == 1;
    assert (1.0).Floor == 1;
    assert (0.5).Floor == 0;
  }
}
