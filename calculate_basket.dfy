/**
 * The calculate-basket command handler: resolves the basket's products,
 * reports every missing id at once, builds the line items in basket order and
 * hands them to the calculator together with the active promotions.
 */
module CalculateBasket {
  import opened Wrappers
  import opened Text
  import opened Calendar
  import opened Errors
  import opened Sequences
  import opened Products
  import opened DiscountPromotions
  import opened PointsPromotions
  import opened BasketLineItems
  import opened BasketCalculator

  /** A `Guid`, identified by its 128-bit value; `Guid.Empty` is zero. */
  datatype Guid = Guid(value: nat)

  const EmptyGuid := Guid(0)

  /** One requested basket entry. */
  datatype BasketItem = BasketItem(productId: string, quantity: int)

  /** The command; the basket may arrive null. */
  datatype CalculateBasketCommand = CalculateBasketCommand(
    customerId: Guid,
    loyaltyCard: Option<string>,
    transactionDate: DateTime,
    basket: Option<seq<BasketItem>>)

  /** What the handler returns: the request's identifying fields and the four computed figures. */
  datatype CalculateBasketResult = CalculateBasketResult(
    customerId: Guid,
    loyaltyCard: Option<string>,
    transactionDate: DateTime,
    totalAmount: real,
    discountApplied: real,
    grandTotal: real,
    pointsEarned: int)

  /**
   * The dictionary the product repository returned, as the handler sees it
   * through its `OrdinalIgnoreCase` comparer: each key is a case-folded id.
   */
  type ProductMap = map<string, Product>

  /** Every product in the map was built by its constructor and sits under its folded key. */
  predicate ValidProductMap(products: ProductMap) {
    forall k :: k in products ==> products[k].Valid() && Fold(k) == k
  }

  /** The requested ids, in basket order. */
  function ProductIds(basket: seq<BasketItem>): (ids: seq<string>)
    ensures |ids| == |basket| && forall i :: 0 <= i < |basket| ==> ids[i] == basket[i].productId
  {
    seq(|basket|, i requires 0 <= i < |basket| => basket[i].productId)
  }

  /** `ids.Where(id => !products.ContainsKey(id))`, in order. */
  function Absent(ids: seq<string>, products: ProductMap): (r: seq<string>)
    ensures forall i :: 0 <= i < |r| ==> r[i] in ids && Fold(r[i]) !in products
    ensures forall i :: 0 <= i < |ids| && Fold(ids[i]) !in products ==> ids[i] in r
  {
    if |ids| == 0 then []
    else (if Fold(ids[0]) in products then [] else [ids[0]]) + Absent(ids[1..], products)
  }

  /** The missing ids: each basket id the map does not resolve, once, in order of first appearance. */
  function MissingProductIds(basket: seq<BasketItem>, products: ProductMap): (missing: seq<string>)
    ensures forall id :: id in missing <==> id in ProductIds(basket) && Fold(id) !in products
    ensures NoDuplicates(missing)
  {
    var absent := Absent(ProductIds(basket), products);
    var missing := Distinct(absent);
    assert forall id :: id in missing <==> id in absent by {
      forall id | id in absent ensures id in missing {
        var i :| 0 <= i < |absent| && absent[i] == id;
      }
    }
    missing
  }

  /** Filtering keeps the relative order of the first appearances of the ids it keeps. */
  lemma {:induction false} AbsentKeepsOrder(ids: seq<string>, products: ProductMap, x: string, y: string)
    requires x in Absent(ids, products) && y in Absent(ids, products)
    ensures FirstIndex(Absent(ids, products), x) < FirstIndex(Absent(ids, products), y)
      <==> FirstIndex(ids, x) < FirstIndex(ids, y)
  {
    var absent := Absent(ids, products);
    var rest := Absent(ids[1..], products);
    if ids[0] == x || ids[0] == y {
      assert absent[0] == ids[0];
    } else {
      assert x in rest && y in rest;
      AbsentKeepsOrder(ids[1..], products, x, y);
      assert FirstIndex(ids, x) == 1 + FirstIndex(ids[1..], x);
      assert FirstIndex(ids, y) == 1 + FirstIndex(ids[1..], y);
      if Fold(ids[0]) !in products {
        assert absent == [ids[0]] + rest;
        FirstIndexBehindHead(ids[0], rest, x);
        FirstIndexBehindHead(ids[0], rest, y);
      } else {
        assert absent == rest;
      }
    }
  }

  /** The missing ids are listed in the order in which they first appear in the basket. */
  lemma MissingIdsInBasketOrder(basket: seq<BasketItem>, products: ProductMap)
    ensures var missing := MissingProductIds(basket, products);
      forall i, j :: 0 <= i < j < |missing| ==>
        FirstIndex(ProductIds(basket), missing[i]) < FirstIndex(ProductIds(basket), missing[j])
  {
    var ids := ProductIds(basket);
    var absent := Absent(ids, products);
    var missing := MissingProductIds(basket, products);
    assert missing == Distinct(absent);
    DistinctKeepsFirstAppearanceOrder(absent);
    forall i, j | 0 <= i < j < |missing|
      ensures FirstIndex(ids, missing[i]) < FirstIndex(ids, missing[j])
    {
      AbsentKeepsOrder(ids, products, missing[i], missing[j]);
    }
  }

  /** The line item the constructor builds for one basket entry, or its exception. */
  function NewLineItemFor(b: BasketItem): Result<BasketLineItem, Error> {
    NewBasketLineItem(b.productId, b.quantity)
  }

  /** Entry `i` is the first basket entry whose line item cannot be built. */
  predicate FirstInvalidEntryAt(basket: seq<BasketItem>, i: int) {
    && 0 <= i < |basket|
    && NewLineItemFor(basket[i]).Failure?
    && forall j :: 0 <= j < i ==> NewLineItemFor(basket[j]).Success?
  }

  /** Behind an entry that builds, the first entry that fails among the rest is the first that fails overall. */
  lemma FirstInvalidEntryBehindHead(basket: seq<BasketItem>, e: Error)
    requires |basket| > 0 && NewLineItemFor(basket[0]).Success?
    requires exists i :: FirstInvalidEntryAt(basket[1..], i) && e == NewLineItemFor(basket[1..][i]).error
    ensures exists i :: FirstInvalidEntryAt(basket, i) && e == NewLineItemFor(basket[i]).error
  {
    var tail := basket[1..];
    var i :| FirstInvalidEntryAt(tail, i) && e == NewLineItemFor(tail[i]).error;
    assert basket[i + 1] == tail[i];
    forall j | 0 <= j < i + 1 ensures NewLineItemFor(basket[j]).Success? {
      if j > 0 {
        assert basket[j] == tail[j - 1];
      }
    }
    assert FirstInvalidEntryAt(basket, i + 1);
  }

  /**
   * `request.Basket.Select(b => (new BasketLineItem(b.ProductId, b.Quantity), products[b.ProductId])).ToList()`:
   * one line per entry in basket order, or the first constructor failure.
   */
  function BuildLineItems(basket: seq<BasketItem>, products: ProductMap): (r: Result<seq<Line>, Error>)
    requires forall i :: 0 <= i < |basket| ==> Fold(basket[i].productId) in products
    ensures r.Success? <==> forall i :: 0 <= i < |basket| ==> NewLineItemFor(basket[i]).Success?
    ensures r.Success? ==> |r.value| == |basket| && forall i :: 0 <= i < |basket| ==>
      r.value[i] == (BasketLineItem(basket[i].productId, basket[i].quantity), products[Fold(basket[i].productId)])
    ensures r.Failure? ==> exists i :: FirstInvalidEntryAt(basket, i) && r.error == NewLineItemFor(basket[i]).error
  {
    if |basket| == 0 then Success([])
    else
      var b := basket[0];
      match NewLineItemFor(b)
      case Failure(e) =>
        assert FirstInvalidEntryAt(basket, 0);
        Failure(e)
      case Success(item) =>
        var rest := BuildLineItems(basket[1..], products);
        assert forall i :: 1 <= i < |basket| ==> basket[i] == basket[1..][i - 1];
        match rest
        case Failure(e) =>
          FirstInvalidEntryBehindHead(basket, e);
          Failure(e)
        case Success(lines) =>
          Success([(item, products[Fold(b.productId)])] + lines)
  }

  /** `!string.IsNullOrWhiteSpace(request.LoyaltyCard)`. */
  function HasLoyaltyCard(loyaltyCard: Option<string>): (b: bool)
    ensures b <==> loyaltyCard.Some? && exists i :: 0 <= i < |loyaltyCard.value| && !IsWhiteSpace(loyaltyCard.value[i])
  {
    !IsNullOrWhiteSpace(loyaltyCard)
  }

  /**
   * `CalculateBasketHandler.Handle`, with the repositories' answers as inputs:
   * `products` is what the product repository returned for the basket's ids,
   * `activeDiscountPromotions` and `activePointsPromotion` what the promotion
   * repositories return for the transaction date.
   */
  function Handle(
    request: CalculateBasketCommand,
    products: ProductMap,
    activeDiscountPromotions: seq<DiscountPromotion>,
    activePointsPromotion: Option<PointsPromotion>): (r: Result<CalculateBasketResult, Error>)
    requires ValidProductMap(products)
    ensures request.basket.None? ==> r == Failure(ArgumentNull("source"))
    ensures r.Success? ==> request.basket.Some? && MissingProductIds(request.basket.value, products) == []
    ensures request.basket.Some? && MissingProductIds(request.basket.value, products) != [] ==>
      r == Failure(NotFound("Product", Join(", ", MissingProductIds(request.basket.value, products))))
    ensures r.Success? ==>
      && r.value.customerId == request.customerId
      && r.value.loyaltyCard == request.loyaltyCard
      && r.value.transactionDate == request.transactionDate
  {
    if request.basket.None? then Failure(ArgumentNull("source"))
    else
      var basket := request.basket.value;
      var missing := MissingProductIds(basket, products);
      if |missing| > 0 then Failure(NotFound("Product", Join(", ", missing)))
      else
        assert forall i :: 0 <= i < |basket| ==> Fold(basket[i].productId) in products by {
          forall i | 0 <= i < |basket| ensures Fold(basket[i].productId) in products {
            assert ProductIds(basket)[i] == basket[i].productId;
          }
        }
        match BuildLineItems(basket, products)
        case Failure(e) => Failure(e)
        case Success(lines) =>
          assert ValidLines(lines) by {
            forall i | 0 <= i < |lines| ensures lines[i].0.Valid() && lines[i].1.Valid() {
              assert NewLineItemFor(basket[i]).Success?;
            }
          }
          var hasLoyaltyCard := HasLoyaltyCard(request.loyaltyCard);
          match CalculateSpec(Some(lines), Some(activeDiscountPromotions), activePointsPromotion, hasLoyaltyCard)
          case Failure(e) => Failure(e)
          case Success(result) =>
            Success(CalculateBasketResult(
              request.customerId, request.loyaltyCard, request.transactionDate,
              result.totalAmount, result.discountApplied, result.grandTotal, result.pointsEarned))
  }

  /** The lines the handler hands to the calculator, once every id resolves. */
  function ResolvedLines(basket: seq<BasketItem>, products: ProductMap): Result<seq<Line>, Error>
    requires MissingProductIds(basket, products) == []
  {
    assert forall i :: 0 <= i < |basket| ==> Fold(basket[i].productId) in products by {
      forall i | 0 <= i < |basket| ensures Fold(basket[i].productId) in products {
        assert ProductIds(basket)[i] == basket[i].productId;
      }
    }
    BuildLineItems(basket, products)
  }

  /**
   * When an id does not resolve, the handler fails with one not-found error
   * that names every missing id, before any promotion is looked at: the
   * promotions given make no difference.
   */
  lemma HandleReportsAllMissing(
    request: CalculateBasketCommand, products: ProductMap,
    promos: seq<DiscountPromotion>, pointsPromotion: Option<PointsPromotion>,
    promos': seq<DiscountPromotion>, pointsPromotion': Option<PointsPromotion>)
    requires ValidProductMap(products) && request.basket.Some?
    requires exists i :: 0 <= i < |request.basket.value| && Fold(request.basket.value[i].productId) !in products
    ensures var missing := MissingProductIds(request.basket.value, products);
      Handle(request, products, promos, pointsPromotion) == Failure(NotFound("Product", Join(", ", missing)))
    ensures Handle(request, products, promos, pointsPromotion) == Handle(request, products, promos', pointsPromotion')
    ensures forall i :: 0 <= i < |request.basket.value| && Fold(request.basket.value[i].productId) !in products ==>
      Contains(Handle(request, products, promos, pointsPromotion).error.Message(), request.basket.value[i].productId)
  {
    var basket := request.basket.value;
    var missing := MissingProductIds(basket, products);
    var i :| 0 <= i < |basket| && Fold(basket[i].productId) !in products;
    assert ProductIds(basket)[i] == basket[i].productId;
    assert basket[i].productId in missing;
    MissingMessageNamesEach(basket, products);
  }

  /** The not-found message built from the missing ids names every line whose id is missing. */
  lemma MissingMessageNamesEach(basket: seq<BasketItem>, products: ProductMap)
    ensures var message := NotFound("Product", Join(", ", MissingProductIds(basket, products))).Message();
      forall i :: 0 <= i < |basket| && Fold(basket[i].productId) !in products ==> Contains(message, basket[i].productId)
  {
    var missing := MissingProductIds(basket, products);
    var key := Join(", ", missing);
    var message := NotFound("Product", key).Message();
    forall i | 0 <= i < |basket| && Fold(basket[i].productId) !in products
      ensures Contains(message, basket[i].productId)
    {
      assert ProductIds(basket)[i] == basket[i].productId;
      var k :| 0 <= k < |missing| && missing[k] == basket[i].productId;
      JoinContainsEach(", ", missing, k);
      ContainsInMiddle("Product" + NotFoundKeyOpening, key, NotFoundClosing, missing[k]);
    }
  }

  /**
   * Once every id resolves, the handler fails with the first line item
   * constructor's error or the calculator's error, or returns the request's
   * customer, card and date with the calculator's four figures, computed with
   * the loyalty flag of the card.
   */
  lemma HandleIsCalculation(
    request: CalculateBasketCommand, products: ProductMap,
    promos: seq<DiscountPromotion>, pointsPromotion: Option<PointsPromotion>)
    requires ValidProductMap(products) && request.basket.Some?
    requires MissingProductIds(request.basket.value, products) == []
    ensures var r := Handle(request, products, promos, pointsPromotion);
      match ResolvedLines(request.basket.value, products)
      case Failure(e) => r == Failure(e)
      case Success(lines) =>
        ValidLines(lines) &&
        var c := CalculateSpec(Some(lines), Some(promos), pointsPromotion, HasLoyaltyCard(request.loyaltyCard));
        (c.Failure? ==> r == Failure(c.error))
        && (c.Success? ==>
          && r.Success?
          && r.value.customerId == request.customerId
          && r.value.loyaltyCard == request.loyaltyCard
          && r.value.transactionDate == request.transactionDate
          && r.value.totalAmount == c.value.totalAmount
          && r.value.discountApplied == c.value.discountApplied
          && r.value.grandTotal == c.value.grandTotal
          && r.value.pointsEarned == c.value.pointsEarned)
  {
    var basket := request.basket.value;
    var built := ResolvedLines(basket, products);
    if built.Success? {
      var lines := built.value;
      forall i | 0 <= i < |lines| ensures lines[i].0.Valid() && lines[i].1.Valid() {
        assert NewLineItemFor(basket[i]).Success?;
      }
    }
  }

  /** Lookup ignores case: "prd01" resolves to the product stored under PRD01, while the line keeps the spelling of the request. */
  lemma LookupIgnoresCase(product: Product)
    ensures MissingProductIds([BasketItem("prd01", 2)], map["PRD01" := product]) == []
    ensures ResolvedLines([BasketItem("prd01", 2)], map["PRD01" := product])
      == Success([(BasketLineItem("prd01", 2), product)])
  {
    assert Fold("prd01") == "PRD01";
    assert ProductIds([BasketItem("prd01", 2)]) == ["prd01"];
    assert !IsBlank("prd01") by { assert "prd01"[0] == 'p'; }
    var basket := [BasketItem("prd01", 2)];
    assert basket[1..] == [];
    assert NewBasketLineItem("prd01", 2) == Success(BasketLineItem("prd01", 2));
    var products := map["PRD01" := product];
    assert BuildLineItems(basket[1..], products) == Success([]);
    assert products[Fold(basket[0].productId)] == product;
    assert BuildLineItems(basket, products) == Success([(BasketLineItem("prd01", 2), product)] + []);
    assert [(BasketLineItem("prd01", 2), product)] + [] == [(BasketLineItem("prd01", 2), product)];
  }
}
