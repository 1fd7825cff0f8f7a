/** Time-bounded loyalty-points promotions, optionally limited to one product category. */
module PointsPromotions {
  import opened Wrappers
  import opened Text
  import opened Calendar
  import opened Errors
  import opened Products

  /** A points promotion as the constructor stores it; a `None` filter means "any category". */
  datatype PointsPromotion = PointsPromotion(
    id: string,
    name: string,
    startDate: DateTime,
    endDate: DateTime,
    categoryFilter: Option<ProductCategory>,
    pointsPerDollar: int)
  {
    /** What the constructor guarantees of every points promotion that exists. */
    predicate Valid() {
      && !IsBlank(id) && !IsBlank(name)
      && startDate.timeOfDay == 0 && endDate.timeOfDay == 0
      && NotAfter(startDate, endDate)
      && pointsPerDollar >= 0
    }

    /** `IsActiveOn`: the calendar day of `date` lies in the promotion's window, both ends included. */
    function IsActiveOn(date: DateTime): bool {
      var checkDate := date.Date();
      NotAfter(startDate, checkDate) && NotAfter(checkDate, endDate)
    }

    /** `AppliesToCategory`: every category when there is no filter, otherwise only the filtered one. */
    function AppliesToCategory(category: ProductCategory): (b: bool)
      ensures categoryFilter.None? ==> b
      ensures categoryFilter.Some? ==> (b <==> categoryFilter.value == category)
    {
      categoryFilter.None? || categoryFilter == Some(category)
    }

    /** The points for an amount: the largest whole number not above amount times points per dollar. */
    function PointsFor(amount: real): (n: int)
      ensures n as real <= amount * pointsPerDollar as real < n as real + 1.0
    {
      (amount * pointsPerDollar as real).Floor
    }

    /** `CalculatePoints`: a negative amount is rejected; otherwise the floored points. */
    function CalculatePoints(amount: real): (r: Result<int, Error>)
      ensures r.Failure? <==> amount < 0.0
      ensures r.Failure? ==> r.error == Argument("Amount cannot be negative.", Some("amount"))
      ensures r.Success? ==> r.value == PointsFor(amount)
    {
      if amount < 0.0 then Failure(Argument("Amount cannot be negative.", Some("amount")))
      else Success(PointsFor(amount))
    }
  }

  /** The `PointsPromotion` constructor: the checks in order, then the normalised fields. */
  function NewPointsPromotion(
    id: string, name: string, startDate: DateTime, endDate: DateTime,
    categoryFilter: Option<ProductCategory>, pointsPerDollar: int): (r: Result<PointsPromotion, Error>)
    ensures r.Success? <==> !IsBlank(id) && !IsBlank(name) && !Before(endDate, startDate) && pointsPerDollar >= 0
    ensures IsBlank(id) ==> r == Failure(Argument("Promotion ID cannot be empty.", Some("id")))
    ensures !IsBlank(id) && IsBlank(name) ==> r == Failure(Argument("Promotion name cannot be empty.", Some("name")))
    ensures !IsBlank(id) && !IsBlank(name) && Before(endDate, startDate)
      ==> r == Failure(Argument("End date cannot be before start date.", Some("endDate")))
    ensures !IsBlank(id) && !IsBlank(name) && !Before(endDate, startDate) && pointsPerDollar < 0
      ==> r == Failure(Argument("Points per dollar cannot be negative.", Some("pointsPerDollar")))
    ensures r.Success? ==> r.value.Valid()
    ensures r.Success? ==> r.value == PointsPromotion(id, name, startDate.Date(), endDate.Date(), categoryFilter, pointsPerDollar)
  {
    if IsBlank(id) then Failure(Argument("Promotion ID cannot be empty.", Some("id")))
    else if IsBlank(name) then Failure(Argument("Promotion name cannot be empty.", Some("name")))
    else if Before(endDate, startDate) then Failure(Argument("End date cannot be before start date.", Some("endDate")))
    else if pointsPerDollar < 0 then Failure(Argument("Points per dollar cannot be negative.", Some("pointsPerDollar")))
    else Success(PointsPromotion(id, name, startDate.Date(), endDate.Date(), categoryFilter, pointsPerDollar))
  }

  /** A promotion is active on every moment of its first and last day and of the days between, and on no day outside. */
  lemma IsActiveOnInclusive(p: PointsPromotion, date: DateTime)
    requires p.Valid()
    ensures SameDay(date, p.startDate) ==> p.IsActiveOn(date)
    ensures SameDay(date, p.endDate) ==> p.IsActiveOn(date)
    ensures Before(date.Date(), p.startDate) ==> !p.IsActiveOn(date)
    ensures Before(p.endDate, date.Date()) ==> !p.IsActiveOn(date)
    ensures Before(p.startDate, date) && Before(date, p.endDate) ==> p.IsActiveOn(date)
  {
  }

  /** Points are never negative, never fall when the amount grows, and a rate of zero gives none. */
  lemma {:induction false} PointsMonotone(p: PointsPromotion, a: real, b: real)
    requires p.Valid() && 0.0 <= a <= b
    ensures 0 <= p.PointsFor(a) <= p.PointsFor(b)
    ensures p.pointsPerDollar == 0 ==> p.PointsFor(b) == 0
  {
    PointsForMonotone(p, a, b);
  }

  /** The floored points grow with the amount whenever the rate is not negative. */
  lemma PointsForMonotone(p: PointsPromotion, a: real, b: real)
    requires p.pointsPerDollar >= 0 && 0.0 <= a <= b
    ensures 0 <= p.PointsFor(a) <= p.PointsFor(b)
    ensures p.pointsPerDollar == 0 ==> p.PointsFor(b) == 0
  {
    var rate := p.pointsPerDollar as real;
    assert 0.0 <= a * rate <= b * rate by {
      assert b * rate - a * rate == (b - a) * rate;
    }
  }

  /** Flooring never rounds up: 3.33 at 2 points per dollar earns 6 points, not 7. */
  lemma PointsAreFloored()
    ensures PointsPromotion("PP001", "New Year Promo", Day(2020, 1, 1), Day(2020, 1, 30), None, 2).PointsFor(3.33) == 6
  {
    assert (6.66).Floor == 6;
  }
}
