/** Time-bounded percentage discounts on an explicit set of products. */
module DiscountPromotions {
  import opened Wrappers
  import opened Text
  import opened Money
  import opened Calendar
  import opened Errors

  /**
   * A discount promotion as the constructor stores it: dates cut to midnight
   * and the eligible product ids kept as one case-folded key each (the
   * `HashSet` with `StringComparer.OrdinalIgnoreCase`).
   */
  datatype DiscountPromotion = DiscountPromotion(
    id: string,
    name: string,
    startDate: DateTime,
    endDate: DateTime,
    discountPercentage: real,
    eligibleProductIds: set<string>)
  {
    /** What the constructor guarantees of every discount promotion that exists. */
    predicate Valid() {
      && !IsBlank(id) && !IsBlank(name)
      && startDate.timeOfDay == 0 && endDate.timeOfDay == 0
      && NotAfter(startDate, endDate)
      && 0.0 <= discountPercentage <= 100.0
      && forall k :: k in eligibleProductIds ==> Fold(k) == k
    }

    /** `IsActiveOn`: the calendar day of `date` lies in the promotion's window, both ends included. */
    function IsActiveOn(date: DateTime): bool {
      var checkDate := date.Date();
      NotAfter(startDate, checkDate) && NotAfter(checkDate, endDate)
    }

    /** `AppliesToProduct`: membership of the id in the eligible set, ignoring case. */
    function AppliesToProduct(productId: string): bool {
      Fold(productId) in eligibleProductIds
    }

    /** The discount on a line total: line total times percentage over 100, rounded half to even to cents. */
    function DiscountOn(lineTotal: real): (d: real)
      ensures IsCents(d)
      ensures d * 100.0 == RoundHalfEven(lineTotal * discountPercentage) as real
    {
      var share := PercentOf(lineTotal, discountPercentage);
      var cents := lineTotal * discountPercentage;
      assert share * 100.0 == cents;
      assert RoundHalfEven(share * 100.0) == RoundHalfEven(cents);
      Round2(share)
    }

    /** `CalculateDiscount`: a negative line total is rejected; otherwise the rounded discount. */
    function CalculateDiscount(lineTotal: real): (r: Result<real, Error>)
      ensures r.Failure? <==> lineTotal < 0.0
      ensures r.Failure? ==> r.error == Argument("Line total cannot be negative.", Some("lineTotal"))
      ensures r.Success? ==> r.value == DiscountOn(lineTotal)
    {
      if lineTotal < 0.0 then Failure(Argument("Line total cannot be negative.", Some("lineTotal")))
      else Success(DiscountOn(lineTotal))
    }
  }

  /** The case-folded keys of the eligible product ids; a null list gives none. */
  function EligibleKeys(eligibleProductIds: Option<seq<string>>): (keys: set<string>)
    ensures forall k :: k in keys ==> Fold(k) == k
    ensures forall p :: Fold(p) in keys <==>
      eligibleProductIds.Some? && exists i :: 0 <= i < |eligibleProductIds.value| && EqualsIgnoreCase(eligibleProductIds.value[i], p)
  {
    match eligibleProductIds
    case None => {}
    case Some(ids) =>
      FoldIdempotentAll(ids);
      set i | 0 <= i < |ids| :: Fold(ids[i])
  }

  lemma FoldIdempotentAll(ids: seq<string>)
    ensures forall i :: 0 <= i < |ids| ==> Fold(Fold(ids[i])) == Fold(ids[i])
  {
  }

  /** The `DiscountPromotion` constructor: the checks in order, then the normalised fields. */
  function NewDiscountPromotion(
    id: string, name: string, startDate: DateTime, endDate: DateTime,
    discountPercentage: real, eligibleProductIds: Option<seq<string>>): (r: Result<DiscountPromotion, Error>)
    ensures r.Success? <==>
      !IsBlank(id) && !IsBlank(name) && !Before(endDate, startDate) && 0.0 <= discountPercentage <= 100.0
    ensures IsBlank(id) ==> r == Failure(Argument("Promotion ID cannot be empty.", Some("id")))
    ensures !IsBlank(id) && IsBlank(name) ==> r == Failure(Argument("Promotion name cannot be empty.", Some("name")))
    ensures !IsBlank(id) && !IsBlank(name) && Before(endDate, startDate)
      ==> r == Failure(Argument("End date cannot be before start date.", Some("endDate")))
    ensures !IsBlank(id) && !IsBlank(name) && !Before(endDate, startDate) && !(0.0 <= discountPercentage <= 100.0)
      ==> r == Failure(Argument("Discount percentage must be between 0 and 100.", Some("discountPercentage")))
    ensures r.Success? ==> r.value.Valid()
    ensures r.Success? ==> r.value.id == id && r.value.name == name && r.value.discountPercentage == discountPercentage
    ensures r.Success? ==> r.value.startDate == startDate.Date() && r.value.endDate == endDate.Date()
    ensures r.Success? ==> forall p :: r.value.AppliesToProduct(p) <==>
      eligibleProductIds.Some? && exists i :: 0 <= i < |eligibleProductIds.value| && EqualsIgnoreCase(eligibleProductIds.value[i], p)
  {
    if IsBlank(id) then Failure(Argument("Promotion ID cannot be empty.", Some("id")))
    else if IsBlank(name) then Failure(Argument("Promotion name cannot be empty.", Some("name")))
    else if Before(endDate, startDate) then Failure(Argument("End date cannot be before start date.", Some("endDate")))
    else if discountPercentage < 0.0 || discountPercentage > 100.0 then
      Failure(Argument("Discount percentage must be between 0 and 100.", Some("discountPercentage")))
    else
      Success(DiscountPromotion(id, name, startDate.Date(), endDate.Date(), discountPercentage, EligibleKeys(eligibleProductIds)))
  }

  /**
   * A promotion is active on every moment of its first and last day, whatever
   * time of day the constructor was given, and on no moment of a day outside.
   */
  lemma IsActiveOnInclusive(p: DiscountPromotion, date: DateTime)
    requires p.Valid()
    ensures SameDay(date, p.startDate) ==> p.IsActiveOn(date)
    ensures SameDay(date, p.endDate) ==> p.IsActiveOn(date)
    ensures Before(date.Date(), p.startDate) ==> !p.IsActiveOn(date)
    ensures Before(p.endDate, date.Date()) ==> !p.IsActiveOn(date)
    ensures Before(p.startDate, date) && Before(date, p.endDate) ==> p.IsActiveOn(date)
  {
  }

  /** A constructed promotion applies to an id exactly when one of the ids it was given equals it ignoring case. */
  lemma AppliesToProductIgnoresCase(
    id: string, name: string, startDate: DateTime, endDate: DateTime,
    discountPercentage: real, eligibleProductIds: Option<seq<string>>, productId: string)
    requires !IsBlank(id) && !IsBlank(name) && !Before(endDate, startDate) && 0.0 <= discountPercentage <= 100.0
    ensures var r := NewDiscountPromotion(id, name, startDate, endDate, discountPercentage, eligibleProductIds);
      r.Success? && (r.value.AppliesToProduct(productId) <==>
        eligibleProductIds.Some?
        && exists i :: 0 <= i < |eligibleProductIds.value| && EqualsIgnoreCase(eligibleProductIds.value[i], productId))
  {
  }

  /** On a whole-cent line total a valid promotion's discount is between zero and the line total. */
  lemma DiscountWithinLineTotal(p: DiscountPromotion, lineTotal: real)
    requires p.Valid() && IsCents(lineTotal) && lineTotal >= 0.0
    ensures 0.0 <= p.DiscountOn(lineTotal) <= lineTotal
  {
    CentsFromScaled(0.0, 0);
    Round2Between(PercentOf(lineTotal, p.discountPercentage), 0.0, lineTotal);
  }

  /** Without whole cents the bound fails: a full discount on 0.015 rounds up to 0.02. */
  lemma DiscountCanExceedLineTotal()
    ensures DiscountPromotion("DP", "Full", Day(2020, 1, 1), Day(2020, 1, 1), 100.0, {}).DiscountOn(0.015) == 0.02
  {
    assert (1.5).Floor == 1;
  }
}
