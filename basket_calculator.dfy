/**
 * The basket calculator: rejects an empty basket and products covered by more
 * than one active discount, then totals the lines, the per-line rounded
 * discounts and the post-discount amount that qualifies for points.
 */
module BasketCalculator {
  import opened Wrappers
  import opened Text
  import opened Money
  import opened Calendar
  import opened Errors
  import opened Sequences
  import opened Products
  import opened DiscountPromotions
  import opened PointsPromotions
  import opened BasketLineItems
  import opened CalculationResults

  /** A basket line paired with the product it resolved to. */
  type Line = (BasketLineItem, Product)

  /** Every line item and product satisfies its constructor's guarantees. */
  predicate ValidLines(lines: seq<Line>) {
    forall i :: 0 <= i < |lines| ==> lines[i].0.Valid() && lines[i].1.Valid()
  }

  /** Two different positions of the list hold promotions that apply to `productId`. */
  predicate CoveredTwice(productId: string, promos: seq<DiscountPromotion>) {
    exists j, k :: 0 <= j < k < |promos| && promos[j].AppliesToProduct(productId) && promos[k].AppliesToProduct(productId)
  }

  /** Some promotion of the list applies to `productId`. */
  predicate AnyApplies(productId: string, promos: seq<DiscountPromotion>) {
    exists k :: 0 <= k < |promos| && promos[k].AppliesToProduct(productId)
  }

  /** Double cover of a non-empty list, decided from its head and its tail. */
  lemma CoveredTwiceByHead(productId: string, promos: seq<DiscountPromotion>)
    requires |promos| > 0
    ensures CoveredTwice(productId, promos) <==>
      if promos[0].AppliesToProduct(productId) then AnyApplies(productId, promos[1..])
      else CoveredTwice(productId, promos[1..])
  {
    var tail := promos[1..];
    if CoveredTwice(productId, tail) {
      var j, k :| 0 <= j < k < |tail| && tail[j].AppliesToProduct(productId) && tail[k].AppliesToProduct(productId);
      assert promos[j + 1] == tail[j] && promos[k + 1] == tail[k];
    }
    if CoveredTwice(productId, promos) {
      var j, k :| 0 <= j < k < |promos| && promos[j].AppliesToProduct(productId) && promos[k].AppliesToProduct(productId);
      assert tail[k - 1] == promos[k];
      if j > 0 {
        assert tail[j - 1] == promos[j];
      }
    }
    if promos[0].AppliesToProduct(productId) && AnyApplies(productId, tail) {
      var k :| 0 <= k < |tail| && tail[k].AppliesToProduct(productId);
      assert promos[k + 1] == tail[k];
    }
  }

  /** A list holding exactly the applicable promotions is non-empty iff one applies. */
  lemma NonEmptyIffAnyApplies(productId: string, promos: seq<DiscountPromotion>, r: seq<DiscountPromotion>)
    requires forall i :: 0 <= i < |r| ==> r[i] in promos && r[i].AppliesToProduct(productId)
    requires forall j :: 0 <= j < |promos| && promos[j].AppliesToProduct(productId) ==> promos[j] in r
    ensures |r| > 0 <==> AnyApplies(productId, promos)
  {
    if |r| > 0 {
      assert r[0] in promos;
      var k :| 0 <= k < |promos| && promos[k] == r[0];
      assert promos[k].AppliesToProduct(productId);
    }
  }

  /** `promos.Where(p => p.AppliesToProduct(productId)).ToList()`. */
  function Applicable(productId: string, promos: seq<DiscountPromotion>): (r: seq<DiscountPromotion>)
    ensures forall i :: 0 <= i < |r| ==> r[i] in promos && r[i].AppliesToProduct(productId)
    ensures forall j :: 0 <= j < |promos| && promos[j].AppliesToProduct(productId) ==> promos[j] in r
    ensures |r| > 1 <==> CoveredTwice(productId, promos)
  {
    if |promos| == 0 then []
    else
      var rest := Applicable(productId, promos[1..]);
      CoveredTwiceByHead(productId, promos);
      if promos[0].AppliesToProduct(productId) then
        NonEmptyIffAnyApplies(productId, promos[1..], rest);
        [promos[0]] + rest
      else
        rest
  }

  /** The filter of a non-empty list: the head when it applies, then the filter of the tail; so a single promotion is kept exactly when it applies. */
  lemma ApplicableByHead(productId: string, promos: seq<DiscountPromotion>)
    requires |promos| > 0
    ensures Applicable(productId, promos)
      == (if promos[0].AppliesToProduct(productId) then [promos[0]] else []) + Applicable(productId, promos[1..])
    ensures |promos| == 1 ==> Applicable(productId, promos) == if promos[0].AppliesToProduct(productId) then promos else []
  {
    if |promos| == 1 {
      assert promos[1..] == [];
    }
  }

  /**
   * `Where` keeps order and multiplicity: filtering a concatenation filters each
   * part (and a single promotion is kept exactly when it applies, `ApplicableByHead`).
   */
  lemma {:induction false} ApplicableKeepsOrder(productId: string, a: seq<DiscountPromotion>, b: seq<DiscountPromotion>)
    ensures Applicable(productId, a + b) == Applicable(productId, a) + Applicable(productId, b)
    decreases |a|
  {
    if |a| == 0 {
      assert a + b == b;
    } else {
      var ab := a + b;
      assert ab[0] == a[0] && ab[1..] == a[1..] + b;
      ApplicableKeepsOrder(productId, a[1..], b);
      ApplicableByHead(productId, a);
      ApplicableByHead(productId, ab);
      ConcatAssociates(
        if a[0].AppliesToProduct(productId) then [a[0]] else [],
        Applicable(productId, a[1..]), Applicable(productId, b));
    }
  }

  /** `FindApplicableDiscount`: `FirstOrDefault(p => p.AppliesToProduct(productId))`. */
  function FindApplicableDiscount(productId: string, promos: seq<DiscountPromotion>): (r: Option<DiscountPromotion>)
    ensures r.None? <==> forall j :: 0 <= j < |promos| ==> !promos[j].AppliesToProduct(productId)
    ensures r.Some? ==> exists k :: (0 <= k < |promos| && promos[k] == r.value && r.value.AppliesToProduct(productId)
      && forall j :: 0 <= j < k ==> !promos[j].AppliesToProduct(productId))
    ensures r.Some? ==> r.value == Applicable(productId, promos)[0]
  {
    if |promos| == 0 then None
    else if promos[0].AppliesToProduct(productId) then Some(promos[0])
    else
      var r := FindApplicableDiscount(productId, promos[1..]);
      assert r.Some? ==> exists k :: (0 <= k < |promos| && promos[k] == r.value && r.value.AppliesToProduct(productId)
        && forall j :: 0 <= j < k ==> !promos[j].AppliesToProduct(productId)) by {
        if r.Some? {
          var k :| 0 <= k < |promos[1..]| && promos[1..][k] == r.value && r.value.AppliesToProduct(productId)
            && forall j :: 0 <= j < k ==> !promos[1..][j].AppliesToProduct(productId);
          assert promos[k + 1] == r.value;
          forall j | 0 <= j < k + 1 ensures !promos[j].AppliesToProduct(productId) {
            if j > 0 { assert promos[j] == promos[1..][j - 1]; }
          }
        }
      }
      r
  }

  /** The ids of the given promotions, in order. */
  function PromotionIds(promos: seq<DiscountPromotion>): (ids: seq<string>)
    ensures |ids| == |promos| && forall i :: 0 <= i < |promos| ==> ids[i] == promos[i].id
  {
    seq(|promos|, i requires 0 <= i < |promos| => promos[i].id)
  }

  /** The domain error for a product covered by several promotions: the id and every matching promotion's id. */
  function OverlapError(productId: string, promos: seq<DiscountPromotion>): Error {
    OverlappingDiscounts(productId, PromotionIds(Applicable(productId, promos)))
  }

  /** No line's product id is covered twice. */
  predicate NoneCoveredTwice(lines: seq<Line>, promos: seq<DiscountPromotion>) {
    forall i :: 0 <= i < |lines| ==> !CoveredTwice(lines[i].0.productId, promos)
  }

  /** Line `i` is the first line whose product id is covered twice. */
  predicate FirstCoveredAt(lines: seq<Line>, promos: seq<DiscountPromotion>, i: int) {
    && 0 <= i < |lines|
    && CoveredTwice(lines[i].0.productId, promos)
    && forall j :: 0 <= j < i ==> !CoveredTwice(lines[j].0.productId, promos)
  }

  /** Behind a line that is not covered twice, the answer for the remaining lines is the answer for all of them. */
  lemma FirstOverlapBehindHead(lines: seq<Line>, promos: seq<DiscountPromotion>, r: Option<Error>)
    requires |lines| > 0 && !CoveredTwice(lines[0].0.productId, promos)
    requires r.None? <==> NoneCoveredTwice(lines[1..], promos)
    requires r.Some? ==> exists i :: FirstCoveredAt(lines[1..], promos, i) && r.value == OverlapError(lines[1..][i].0.productId, promos)
    ensures r.None? <==> NoneCoveredTwice(lines, promos)
    ensures r.Some? ==> exists i :: FirstCoveredAt(lines, promos, i) && r.value == OverlapError(lines[i].0.productId, promos)
  {
    var tail := lines[1..];
    assert forall i :: 1 <= i < |lines| ==> lines[i] == tail[i - 1];
    if r.Some? {
      var i :| FirstCoveredAt(tail, promos, i) && r.value == OverlapError(tail[i].0.productId, promos);
      assert lines[i + 1] == tail[i];
      forall j | 0 <= j < i + 1 ensures !CoveredTwice(lines[j].0.productId, promos) {
        if j > 0 {
          assert lines[j] == tail[j - 1];
        }
      }
      assert FirstCoveredAt(lines, promos, i + 1);
    }
  }

  /** The check of `ValidateNoOverlappingDiscounts`: the error for the first line whose product id is covered twice. */
  function FirstOverlap(lines: seq<Line>, promos: seq<DiscountPromotion>): (r: Option<Error>)
    ensures r.None? <==> NoneCoveredTwice(lines, promos)
    ensures r.Some? ==> exists i :: FirstCoveredAt(lines, promos, i) && r.value == OverlapError(lines[i].0.productId, promos)
  {
    if |lines| == 0 then None
    else if |Applicable(lines[0].0.productId, promos)| > 1 then
      assert FirstCoveredAt(lines, promos, 0);
      Some(OverlapError(lines[0].0.productId, promos))
    else
      var r := FirstOverlap(lines[1..], promos);
      FirstOverlapBehindHead(lines, promos, r);
      r
  }

  /** The exact total of one line. */
  function LineAmount(line: Line): real {
    line.1.LineTotal(line.0.quantity)
  }

  /** The rounded discount of one line: that of the first promotion covering its product, or zero. */
  function LineDiscount(promos: seq<DiscountPromotion>, line: Line): (d: real)
    ensures (forall j :: 0 <= j < |promos| ==> !promos[j].AppliesToProduct(line.1.productId)) ==> d == 0.0
    ensures IsCents(d)
  {
    match FindApplicableDiscount(line.1.productId, promos)
    case None => 0.0
    case Some(p) => p.DiscountOn(LineAmount(line))
  }

  /** What one line adds to the points-qualifying amount: its post-discount amount when its category passes the filter. */
  function LineQualifying(promos: seq<DiscountPromotion>, pointsPromotion: Option<PointsPromotion>, line: Line): real {
    if pointsPromotion.Some? && pointsPromotion.value.AppliesToCategory(line.1.category)
    then LineAmount(line) - LineDiscount(promos, line)
    else 0.0
  }

  /** The raw basket total: the sum of unit price times quantity over the lines. */
  function TotalOf(lines: seq<Line>): real {
    SumOf(lines, LineAmount)
  }

  /** `LineDiscount` for a fixed list of promotions, as a function of the line. */
  function DiscountPerLine(promos: seq<DiscountPromotion>): Line -> real {
    line => LineDiscount(promos, line)
  }

  /** `LineQualifying` for fixed promotions, as a function of the line. */
  function QualifyingPerLine(promos: seq<DiscountPromotion>, pointsPromotion: Option<PointsPromotion>): Line -> real {
    line => LineQualifying(promos, pointsPromotion, line)
  }

  /** The raw discount: the sum of the per-line rounded discounts. */
  function DiscountOf(lines: seq<Line>, promos: seq<DiscountPromotion>): real {
    SumOf(lines, DiscountPerLine(promos))
  }

  /** The raw points-qualifying amount. */
  function QualifyingOf(lines: seq<Line>, promos: seq<DiscountPromotion>, pointsPromotion: Option<PointsPromotion>): real {
    SumOf(lines, QualifyingPerLine(promos, pointsPromotion))
  }

  /**
   * What `Calculate` returns or throws, stated with the three sums: null and
   * empty baskets and overlapping discounts are rejected first; then points
   * (with a loyalty card and a points promotion) and the result constructor.
   */
  function CalculateSpec(
    lineItems: Option<seq<Line>>,
    activeDiscountPromotions: Option<seq<DiscountPromotion>>,
    activePointsPromotion: Option<PointsPromotion>,
    hasLoyaltyCard: bool): Result<BasketCalculationResult, Error>
    requires lineItems.Some? ==> ValidLines(lineItems.value)
  {
    if lineItems.None? then Failure(ArgumentNull("lineItems"))
    else if activeDiscountPromotions.None? then Failure(ArgumentNull("activeDiscountPromotions"))
    else if |lineItems.value| == 0 then Failure(Argument("Basket cannot be empty.", Some("lineItems")))
    else
      var lines, promos := lineItems.value, activeDiscountPromotions.value;
      match FirstOverlap(lines, promos)
      case Some(e) => Failure(e)
      case None =>
        var points :=
          if hasLoyaltyCard && activePointsPromotion.Some?
          then activePointsPromotion.value.CalculatePoints(QualifyingOf(lines, promos, activePointsPromotion))
          else Success(0);
        if points.Failure? then Failure(points.error)
        else NewResult(TotalOf(lines), DiscountOf(lines, promos), points.value)
  }

  /** `ValidateNoOverlappingDiscounts`: walks the lines and stops at the first product covered twice. */
  method ValidateNoOverlappingDiscounts(lines: seq<Line>, promos: seq<DiscountPromotion>) returns (overlap: Option<Error>)
    ensures overlap == FirstOverlap(lines, promos)
  {
    for i := 0 to |lines|
      invariant FirstOverlap(lines[i..], promos) == FirstOverlap(lines, promos)
    {
      var applicablePromotions := Applicable(lines[i].0.productId, promos);
      assert lines[i..][0] == lines[i] && lines[i..][1..] == lines[i + 1..];
      if |applicablePromotions| > 1 {
        return Some(OverlappingDiscounts(lines[i].0.productId, PromotionIds(applicablePromotions)));
      }
    }
    assert lines[|lines|..] == [];
    return None;
  }

  /** Extending a prefix of the lines by one line adds that line's amount, discount and qualifying amount. */
  lemma SumsStep(lines: seq<Line>, i: nat, promos: seq<DiscountPromotion>, pointsPromotion: Option<PointsPromotion>)
    requires i < |lines|
    ensures TotalOf(lines[..i + 1]) == TotalOf(lines[..i]) + LineAmount(lines[i])
    ensures DiscountOf(lines[..i + 1], promos) == DiscountOf(lines[..i], promos) + LineDiscount(promos, lines[i])
    ensures QualifyingOf(lines[..i + 1], promos, pointsPromotion)
      == QualifyingOf(lines[..i], promos, pointsPromotion) + LineQualifying(promos, pointsPromotion, lines[i])
  {
    assert lines[..i + 1][..i] == lines[..i];
  }

  /** The loop of `Calculate`: one pass that updates the three running totals. */
  method SumLines(lines: seq<Line>, promos: seq<DiscountPromotion>, activePointsPromotion: Option<PointsPromotion>)
    returns (totalAmount: real, totalDiscount: real, pointsQualifyingAmount: real)
    requires ValidLines(lines)
    ensures totalAmount == TotalOf(lines)
    ensures totalDiscount == DiscountOf(lines, promos)
    ensures pointsQualifyingAmount == QualifyingOf(lines, promos, activePointsPromotion)
  {
    totalAmount, totalDiscount, pointsQualifyingAmount := 0.0, 0.0, 0.0;
    for i := 0 to |lines|
      invariant totalAmount == TotalOf(lines[..i])
      invariant totalDiscount == DiscountOf(lines[..i], promos)
      invariant pointsQualifyingAmount == QualifyingOf(lines[..i], promos, activePointsPromotion)
    {
      SumsStep(lines, i, promos, activePointsPromotion);
      var (lineItem, product) := lines[i];
      LineTotalMonotone(product, 0, lineItem.quantity);
      var lineTotal := product.CalculateLineTotal(lineItem.quantity).value;
      totalAmount := totalAmount + lineTotal;
      var applicableDiscount := FindApplicableDiscount(product.productId, promos);
      var lineDiscount := if applicableDiscount.Some? then applicableDiscount.value.CalculateDiscount(lineTotal).value else 0.0;
      totalDiscount := totalDiscount + lineDiscount;
      if activePointsPromotion.Some? && activePointsPromotion.value.AppliesToCategory(product.category) {
        pointsQualifyingAmount := pointsQualifyingAmount + (lineTotal - lineDiscount);
      }
    }
    assert lines[..|lines|] == lines;
  }

  /** `Calculate`: the guards, the overlap check, the totals, then points and the result. */
  method Calculate(
    lineItems: Option<seq<Line>>,
    activeDiscountPromotions: Option<seq<DiscountPromotion>>,
    activePointsPromotion: Option<PointsPromotion>,
    hasLoyaltyCard: bool) returns (r: Result<BasketCalculationResult, Error>)
    requires lineItems.Some? ==> ValidLines(lineItems.value)
    ensures r == CalculateSpec(lineItems, activeDiscountPromotions, activePointsPromotion, hasLoyaltyCard)
  {
    if lineItems.None? {
      return Failure(ArgumentNull("lineItems"));
    }
    if activeDiscountPromotions.None? {
      return Failure(ArgumentNull("activeDiscountPromotions"));
    }
    var lines, promos := lineItems.value, activeDiscountPromotions.value;
    if |lines| == 0 {
      return Failure(Argument("Basket cannot be empty.", Some("lineItems")));
    }
    var overlap := ValidateNoOverlappingDiscounts(lines, promos);
    if overlap.Some? {
      return Failure(overlap.value);
    }
    var totalAmount, totalDiscount, pointsQualifyingAmount := SumLines(lines, promos, activePointsPromotion);
    var points: Result<int, Error> :=
      if hasLoyaltyCard && activePointsPromotion.Some?
      then activePointsPromotion.value.CalculatePoints(pointsQualifyingAmount)
      else Success(0);
    if points.Failure? {
      return Failure(points.error);
    }
    r := NewResult(totalAmount, totalDiscount, points.value);
  }

  /** Every promotion in the list satisfies its constructor's guarantees. */
  predicate ValidPromotions(promos: seq<DiscountPromotion>) {
    forall j :: 0 <= j < |promos| ==> promos[j].Valid()
  }

  /** Every unit price in the basket is a whole number of cents. */
  predicate WholeCentPrices(lines: seq<Line>) {
    forall i :: 0 <= i < |lines| ==> IsCents(lines[i].1.unitPrice)
  }

  /** Null and empty baskets, and a null promotion list, are rejected with argument errors before anything else. */
  lemma CalculateRejectsMissingOrEmptyBasket(
    lines: seq<Line>, promos: Option<seq<DiscountPromotion>>, pointsPromotion: Option<PointsPromotion>, hasLoyaltyCard: bool)
    requires ValidLines(lines)
    ensures CalculateSpec(None, promos, pointsPromotion, hasLoyaltyCard) == Failure(ArgumentNull("lineItems"))
    ensures CalculateSpec(Some(lines), None, pointsPromotion, hasLoyaltyCard) == Failure(ArgumentNull("activeDiscountPromotions"))
    ensures promos.Some? && lines == [] ==>
      CalculateSpec(Some(lines), promos, pointsPromotion, hasLoyaltyCard) == Failure(Argument("Basket cannot be empty.", Some("lineItems")))
  {
  }

  /**
   * A product covered by two promotions fails the whole calculation with the
   * overlap error of the first such line, whatever the points settings.
   */
  lemma CalculateRejectsOverlap(
    lines: seq<Line>, promos: seq<DiscountPromotion>, pointsPromotion: Option<PointsPromotion>, hasLoyaltyCard: bool, i: nat)
    requires ValidLines(lines) && i < |lines| && CoveredTwice(lines[i].0.productId, promos)
    ensures var r := CalculateSpec(Some(lines), Some(promos), pointsPromotion, hasLoyaltyCard);
      r.Failure? && r.error.OverlappingDiscounts?
      && exists k :: (0 <= k <= i && CoveredTwice(lines[k].0.productId, promos)
        && r.error == OverlapError(lines[k].0.productId, promos))
  {
    var e := FirstOverlap(lines, promos);
    assert e.Some?;
    var k :| FirstCoveredAt(lines, promos, k) && e.value == OverlapError(lines[k].0.productId, promos);
    assert k <= i;
  }

  /** Without a product covered twice, the calculation never fails with the overlap error. */
  lemma CalculateOverlapNeedsCover(
    lines: seq<Line>, promos: seq<DiscountPromotion>, pointsPromotion: Option<PointsPromotion>, hasLoyaltyCard: bool)
    requires ValidLines(lines) && NoneCoveredTwice(lines, promos)
    ensures var r := CalculateSpec(Some(lines), Some(promos), pointsPromotion, hasLoyaltyCard);
      r.Failure? ==> r.error.Argument?
  {
    assert FirstOverlap(lines, promos).None?;
  }

  /** The overlap error names the product and every promotion that covers it, at least two of them. */
  lemma OverlapErrorNamesAll(productId: string, promos: seq<DiscountPromotion>)
    requires CoveredTwice(productId, promos)
    ensures var e := OverlapError(productId, promos);
      && e.productId == productId
      && |e.promotionIds| >= 2
      && forall j :: 0 <= j < |promos| && promos[j].AppliesToProduct(productId) ==> promos[j].id in e.promotionIds
  {
    var applicable := Applicable(productId, promos);
    var ids := PromotionIds(applicable);
    forall j | 0 <= j < |promos| && promos[j].AppliesToProduct(productId)
      ensures promos[j].id in ids
    {
      var m :| 0 <= m < |applicable| && applicable[m] == promos[j];
      assert ids[m] == promos[j].id;
    }
  }

  /** Every id the overlap error names belongs to a promotion that covers the product. */
  lemma OverlapErrorNamesOnlyCovering(productId: string, promos: seq<DiscountPromotion>)
    ensures forall id :: id in OverlapError(productId, promos).promotionIds ==>
      exists j :: 0 <= j < |promos| && promos[j].AppliesToProduct(productId) && promos[j].id == id
  {
    var applicable := Applicable(productId, promos);
    var ids := PromotionIds(applicable);
    assert ids == OverlapError(productId, promos).promotionIds;
    forall id | id in ids
      ensures exists j :: 0 <= j < |promos| && promos[j].AppliesToProduct(productId) && promos[j].id == id
    {
      var k :| 0 <= k < |ids| && ids[k] == id;
      var j :| 0 <= j < |promos| && promos[j] == applicable[k];
      assert promos[j].AppliesToProduct(productId) && promos[j].id == id;
    }
  }

  /** The text of an overlap error contains the product id and every promotion id it carries. */
  lemma OverlapMessageNamesAll(productId: string, promotionIds: seq<string>)
    ensures Contains(OverlappingDiscounts(productId, promotionIds).Message(), productId)
    ensures forall k :: 0 <= k < |promotionIds| ==>
      Contains(OverlappingDiscounts(productId, promotionIds).Message(), promotionIds[k])
  {
    var message := OverlappingDiscounts(productId, promotionIds).Message();
    var head, middle, tail := OverlapOpening, OverlapListIntro, OverlapClosing;
    var joined := Join(", ", promotionIds);
    assert message == head + productId + middle + joined + tail;
    assert OccursAt(productId, productId, 0);
    ContainsInMiddle(head, productId, middle + joined + tail, productId);
    assert message == head + productId + (middle + joined + tail);
    forall k | 0 <= k < |promotionIds|
      ensures Contains(message, promotionIds[k])
    {
      JoinContainsEach(", ", promotionIds, k);
      ContainsInMiddle(head + productId + middle, joined, tail, promotionIds[k]);
    }
  }

  /** The reported figures are the rounded sums; the points are zero without a loyalty card or a points promotion, and floored otherwise. */
  lemma CalculateReportsRoundedSums(
    lines: seq<Line>, promos: seq<DiscountPromotion>, pointsPromotion: Option<PointsPromotion>, hasLoyaltyCard: bool)
    requires ValidLines(lines)
    requires CalculateSpec(Some(lines), Some(promos), pointsPromotion, hasLoyaltyCard).Success?
    ensures var r := CalculateSpec(Some(lines), Some(promos), pointsPromotion, hasLoyaltyCard).value;
      && r.totalAmount == Round2(TotalOf(lines))
      && r.discountApplied == Round2(DiscountOf(lines, promos))
      && r.grandTotal == Round2(TotalOf(lines) - DiscountOf(lines, promos))
      && (!hasLoyaltyCard || pointsPromotion.None? ==> r.pointsEarned == 0)
      && (hasLoyaltyCard && pointsPromotion.Some?
        ==> r.pointsEarned == pointsPromotion.value.PointsFor(QualifyingOf(lines, promos, pointsPromotion)))
  {
  }

  /** Promotions, the points promotion and the loyalty card never change the reported total. */
  lemma TotalIgnoresPromotions(
    lines: seq<Line>,
    promos: seq<DiscountPromotion>, pointsPromotion: Option<PointsPromotion>, hasLoyaltyCard: bool,
    promos': seq<DiscountPromotion>, pointsPromotion': Option<PointsPromotion>, hasLoyaltyCard': bool)
    requires ValidLines(lines)
    requires CalculateSpec(Some(lines), Some(promos), pointsPromotion, hasLoyaltyCard).Success?
    requires CalculateSpec(Some(lines), Some(promos'), pointsPromotion', hasLoyaltyCard').Success?
    ensures CalculateSpec(Some(lines), Some(promos), pointsPromotion, hasLoyaltyCard).value.totalAmount
      == CalculateSpec(Some(lines), Some(promos'), pointsPromotion', hasLoyaltyCard').value.totalAmount
  {
  }

  /** A line whose category fails the points filter still adds to the total and the discount, but not to the qualifying amount. */
  lemma FilteredLineCountsOnlyInTotals(
    lines: seq<Line>, line: Line, promos: seq<DiscountPromotion>, pointsPromotion: Option<PointsPromotion>)
    requires pointsPromotion.Some? && !pointsPromotion.value.AppliesToCategory(line.1.category)
    ensures TotalOf(lines + [line]) == TotalOf(lines) + LineAmount(line)
    ensures DiscountOf(lines + [line], promos) == DiscountOf(lines, promos) + LineDiscount(promos, line)
    ensures QualifyingOf(lines + [line], promos, pointsPromotion) == QualifyingOf(lines, promos, pointsPromotion)
  {
    assert (lines + [line])[..|lines|] == lines;
  }

  /** Reordering the lines keeps them valid and keeps whether some product is covered twice. */
  lemma PermutationKeepsLines(lines: seq<Line>, lines': seq<Line>, promos: seq<DiscountPromotion>)
    requires ValidLines(lines) && multiset(lines) == multiset(lines')
    ensures |lines| == |lines'| && ValidLines(lines')
    ensures NoneCoveredTwice(lines, promos) <==> NoneCoveredTwice(lines', promos)
  {
    assert |lines| == |multiset(lines)| == |lines'|;
    forall i | 0 <= i < |lines'| ensures lines'[i] in lines {
      assert lines'[i] in multiset(lines');
    }
    forall i | 0 <= i < |lines| ensures lines[i] in lines' {
      assert lines[i] in multiset(lines);
    }
  }

  /** Reordering the lines changes neither whether the calculation succeeds nor, without an overlap, its result. */
  lemma CalculatePermutationInvariant(
    lines: seq<Line>, lines': seq<Line>,
    promos: seq<DiscountPromotion>, pointsPromotion: Option<PointsPromotion>, hasLoyaltyCard: bool)
    requires ValidLines(lines) && multiset(lines) == multiset(lines')
    ensures ValidLines(lines')
    ensures CalculateSpec(Some(lines), Some(promos), pointsPromotion, hasLoyaltyCard).Success?
      <==> CalculateSpec(Some(lines'), Some(promos), pointsPromotion, hasLoyaltyCard).Success?
    ensures FirstOverlap(lines, promos).None? ==>
      CalculateSpec(Some(lines), Some(promos), pointsPromotion, hasLoyaltyCard)
      == CalculateSpec(Some(lines'), Some(promos), pointsPromotion, hasLoyaltyCard)
  {
    PermutationKeepsLines(lines, lines', promos);
    assert FirstOverlap(lines, promos).None? <==> FirstOverlap(lines', promos).None?;
    SumOfPermutation(lines, lines', LineAmount);
    SumOfPermutation(lines, lines', DiscountPerLine(promos));
    SumOfPermutation(lines, lines', QualifyingPerLine(promos, pointsPromotion));
    assert TotalOf(lines) == TotalOf(lines') && DiscountOf(lines, promos) == DiscountOf(lines', promos);
    assert QualifyingOf(lines, promos, pointsPromotion) == QualifyingOf(lines', promos, pointsPromotion);
  }

  /** On a whole-cent price one line's amount is whole cents and its discount lies between zero and that amount. */
  lemma CentLine(line: Line, promos: seq<DiscountPromotion>)
    requires line.0.Valid() && line.1.Valid() && IsCents(line.1.unitPrice) && ValidPromotions(promos)
    ensures IsCents(LineAmount(line)) && 0.0 <= LineDiscount(promos, line) <= LineAmount(line)
  {
    var (item, product) := line;
    LineTotalInCents(product, item.quantity);
    LineTotalMonotone(product, 0, item.quantity);
    var p := FindApplicableDiscount(product.productId, promos);
    if p.Some? {
      DiscountWithinLineTotal(p.value, LineAmount(line));
    }
  }

  /** Whole-cent totals with discounts between zero and the total stay so when added. */
  lemma CentBoundsAdd(total: real, discount: real, total': real, discount': real)
    requires IsCents(total) && IsCents(discount) && IsCents(total') && IsCents(discount')
    requires 0.0 <= discount <= total && 0.0 <= discount' <= total'
    ensures IsCents(total + total') && IsCents(discount + discount')
    ensures 0.0 <= discount + discount' <= total + total'
  {
    CentsArithmetic(total, total');
    CentsArithmetic(discount, discount');
  }

  /** Summing whole-cent amounts and whole-cent parts of them gives whole cents, the sum of the parts bounded by the sum of the amounts. */
  lemma {:induction false} SumOfCentParts<T>(s: seq<T>, amount: T -> real, part: T -> real)
    requires forall i :: 0 <= i < |s| ==> IsCents(amount(s[i])) && IsCents(part(s[i]))
    requires forall i :: 0 <= i < |s| ==> 0.0 <= part(s[i]) <= amount(s[i])
    ensures IsCents(SumOf(s, amount)) && IsCents(SumOf(s, part))
    ensures 0.0 <= SumOf(s, part) <= SumOf(s, amount)
  {
    if |s| == 0 {
      assert IsCents(0.0);
    } else {
      var n := |s| - 1;
      SumOfCentParts(s[..n], amount, part);
      CentBoundsAdd(SumOf(s[..n], amount), SumOf(s[..n], part), amount(s[n]), part(s[n]));
    }
  }

  /** A sum of amounts that are never negative is not negative. */
  lemma {:induction false} SumOfNonNegative<T>(s: seq<T>, f: T -> real)
    requires forall i :: 0 <= i < |s| ==> 0.0 <= f(s[i])
    ensures 0.0 <= SumOf(s, f)
  {
    if |s| > 0 {
      SumOfNonNegative(s[..|s| - 1], f);
    }
  }

  /** On whole-cent prices the three sums are whole cents, the discount lies between zero and the total, and the qualifying amount is not negative. */
  lemma CentSums(lines: seq<Line>, promos: seq<DiscountPromotion>, pointsPromotion: Option<PointsPromotion>)
    requires ValidLines(lines) && ValidPromotions(promos) && WholeCentPrices(lines)
    ensures IsCents(TotalOf(lines)) && IsCents(DiscountOf(lines, promos))
    ensures 0.0 <= DiscountOf(lines, promos) <= TotalOf(lines)
    ensures 0.0 <= QualifyingOf(lines, promos, pointsPromotion)
  {
    var discountOf, qualifyingOf := DiscountPerLine(promos), QualifyingPerLine(promos, pointsPromotion);
    forall i | 0 <= i < |lines|
      ensures IsCents(LineAmount(lines[i])) && IsCents(discountOf(lines[i]))
      ensures 0.0 <= discountOf(lines[i]) <= LineAmount(lines[i])
      ensures 0.0 <= qualifyingOf(lines[i])
    {
      CentLine(lines[i], promos);
    }
    SumOfCentParts(lines, LineAmount, discountOf);
    SumOfNonNegative(lines, qualifyingOf);
  }

  /**
   * On whole-cent prices with valid promotions a non-empty basket succeeds
   * exactly when no product is covered twice, nothing is rounded, and the grand
   * total is the reported total minus the reported discount.
   */
  lemma CentBasketSucceedsUnlessOverlap(
    lines: seq<Line>, promos: seq<DiscountPromotion>, pointsPromotion: Option<PointsPromotion>, hasLoyaltyCard: bool)
    requires |lines| > 0 && ValidLines(lines) && ValidPromotions(promos) && WholeCentPrices(lines)
    requires pointsPromotion.Some? ==> pointsPromotion.value.Valid()
    ensures var r := CalculateSpec(Some(lines), Some(promos), pointsPromotion, hasLoyaltyCard);
      && (r.Success? <==> FirstOverlap(lines, promos).None?)
      && (r.Success? ==>
        && r.value.totalAmount == TotalOf(lines)
        && r.value.discountApplied == DiscountOf(lines, promos)
        && r.value.grandTotal == r.value.totalAmount - r.value.discountApplied)
  {
    var total, discount, qualifying := TotalOf(lines), DiscountOf(lines, promos), QualifyingOf(lines, promos, pointsPromotion);
    CentSums(lines, promos, pointsPromotion);
    var points := 0;
    if hasLoyaltyCard && pointsPromotion.Some? {
      PointsMonotone(pointsPromotion.value, 0.0, qualifying);
      points := pointsPromotion.value.PointsFor(qualifying);
    }
    if FirstOverlap(lines, promos).None? {
      assert CalculateSpec(Some(lines), Some(promos), pointsPromotion, hasLoyaltyCard) == NewResult(total, discount, points);
      GrandTotalIsDifference(total, discount, points);
    }
  }

  /** A one-unit line priced at 0.015, below a whole cent. */
  const CentlessLine: Line := (BasketLineItem("PRD01", 1), Product("PRD01", "Fuel", Fuel, 0.015))

  /** A promotion taking the full price off PRD01. */
  const FullDiscount := DiscountPromotion("DP", "Full", Day(2020, 1, 1), Day(2020, 1, 1), 100.0, {"PRD01"})

  /** The sums for the basket holding only the centless line under the full discount. */
  lemma CentlessSums()
    ensures ValidLines([CentlessLine]) && FullDiscount.Valid()
    ensures TotalOf([CentlessLine]) == 0.015 && DiscountOf([CentlessLine], [FullDiscount]) == 0.02
  {
    var line := CentlessLine;
    assert !IsBlank("PRD01") by { assert "PRD01"[0] == 'P'; }
    assert !IsBlank("Fuel") by { assert "Fuel"[0] == 'F'; }
    assert !IsBlank("DP") by { assert "DP"[0] == 'D'; }
    assert !IsBlank("Full") by { assert "Full"[0] == 'F'; }
    assert Fold("PRD01") == "PRD01";
    assert LineAmount(line) == 0.015 && LineDiscount([FullDiscount], line) == 0.02 by {
      assert FindApplicableDiscount("PRD01", [FullDiscount]) == Some(FullDiscount);
      DiscountCanExceedLineTotal();
    }
    SumsStep([line], 0, [FullDiscount], None);
    assert [line][..0] == [] && [line][..1] == [line];
  }

  /** Without whole cents the discount can exceed the total: a full discount on a 0.015 line is rejected by the result constructor. */
  lemma CentlessBasketCanBeRejected()
    ensures ValidLines([CentlessLine]) && FullDiscount.Valid()
    ensures CalculateSpec(Some([CentlessLine]), Some([FullDiscount]), None, false)
      == Failure(Argument("Discount cannot exceed total amount.", Some("discountApplied")))
  {
    CentlessSums();
    assert FirstOverlap([CentlessLine], [FullDiscount]).None? by {
      assert !CoveredTwice(CentlessLine.0.productId, [FullDiscount]);
    }
  }
}
