/**
 * The basket handler wired to the in-memory repositories: the product lookup
 * over the seeded catalogue and the promotions seeded for 2020.
 */
module SeededHandler {
  import opened Wrappers
  import opened Text
  import opened Calendar
  import opened Errors
  import opened Sequences
  import opened DiscountPromotions
  import opened PointsPromotions
  import opened BasketLineItems
  import Money
  import CalculationResults
  import opened BasketCalculator
  import opened CalculateBasket
  import ProductRepository
  import DiscountPromotionRepository
  import PointsPromotionRepository

  /**
   * `Handle` with its repositories: the ids are taken `Distinct` (ordinally) and
   * looked up in the catalogue, which throws on two spellings of one id; the
   * promotions are those active on the transaction date.
   */
  function HandleWithSeed(request: CalculateBasketCommand): (r: Result<CalculateBasketResult, Error>)
    ensures request.basket.None? ==> r == Failure(ArgumentNull("source"))
    ensures request.basket.Some? ==>
      var lookup := ProductRepository.GetByIds(ProductRepository.Catalogue, Distinct(ProductIds(request.basket.value)));
      (lookup.Failure? ==> r == Failure(lookup.error))
      && (lookup.Success? ==> ValidProductMap(lookup.value) && r == Handle(request, lookup.value,
          DiscountPromotionRepository.GetActiveOnDate(request.transactionDate),
          PointsPromotionRepository.GetActiveOnDate(request.transactionDate)))
  {
    if request.basket.None? then Failure(ArgumentNull("source"))
    else
      var ids := Distinct(ProductIds(request.basket.value));
      match ProductRepository.GetByIds(ProductRepository.Catalogue, ids)
      case Failure(e) => Failure(e)
      case Success(products) =>
        ProductRepository.SeedCatalogueValid();
        ProductRepository.GetByIdsFindsRequested(ProductRepository.Catalogue, ids);
        Handle(request, products,
          DiscountPromotionRepository.GetActiveOnDate(request.transactionDate),
          PointsPromotionRepository.GetActiveOnDate(request.transactionDate))
  }

  /** When no product is covered by two of the promotions, the handler never fails with the overlap error. */
  lemma HandleOverlapNeedsDoubleCover(
    request: CalculateBasketCommand, products: ProductMap,
    promos: seq<DiscountPromotion>, points: Option<PointsPromotion>)
    requires ValidProductMap(products)
    requires forall id :: !CoveredTwice(id, promos)
    ensures var r := Handle(request, products, promos, points); r.Failure? ==> !r.error.OverlappingDiscounts?
  {
    var r := Handle(request, products, promos, points);
    if request.basket.Some? && MissingProductIds(request.basket.value, products) != [] {
      var basket := request.basket.value;
      var id := MissingProductIds(basket, products)[0];
      var i :| 0 <= i < |basket| && ProductIds(basket)[i] == id;
      HandleReportsAllMissing(request, products, promos, points, promos, points);
      assert r.error.NotFound?;
    } else if request.basket.Some? {
      var basket := request.basket.value;
      HandleIsCalculation(request, products, promos, points);
      var built := ResolvedLines(basket, products);
      if built.Failure? {
        var i :| FirstInvalidEntryAt(basket, i) && built.error == NewLineItemFor(basket[i]).error;
        assert r == Failure(built.error) && built.error.Argument?;
      } else {
        var lines := built.value;
        CalculateOverlapNeedsCover(lines, promos, points, HasLoyaltyCard(request.loyaltyCard));
      }
    }
  }

  /** With the seeded promotions no basket on any date is rejected for overlapping discounts. */
  lemma SeedNeverRejectsOverlap(request: CalculateBasketCommand)
    ensures var r := HandleWithSeed(request); r.Failure? ==> !r.error.OverlappingDiscounts?
  {
    var r := HandleWithSeed(request);
    if request.basket.Some? {
      var lookup := ProductRepository.GetByIds(ProductRepository.Catalogue, Distinct(ProductIds(request.basket.value)));
      if lookup.Success? {
        var promos := DiscountPromotionRepository.GetActiveOnDate(request.transactionDate);
        forall id ensures !CoveredTwice(id, promos) {
          DiscountPromotionRepository.SeedNeverOverlaps(request.transactionDate, id);
        }
        HandleOverlapNeedsDoubleCover(request, lookup.value, promos,
          PointsPromotionRepository.GetActiveOnDate(request.transactionDate));
      }
    }
  }

  /** A basket naming one product in two spellings fails in the catalogue lookup with the duplicate-key error. */
  lemma MixedCaseBasketFails(request: CalculateBasketCommand)
    requires request.basket == Some([BasketItem("prd01", 1), BasketItem("PRD01", 1)])
    ensures HandleWithSeed(request) == Failure(DuplicateKey("PRD01"))
  {
    var ids := ["prd01", "PRD01"];
    assert ProductIds(request.basket.value) == ids;
    assert ids[..1] == ["prd01"] && ids[..1][..0] == [];
    assert "prd01" != "PRD01" by { assert "prd01"[0] != "PRD01"[0]; }
    assert Distinct(ids) == ids;
    ProductRepository.CaseVariantsCollide();
  }

  /** 10 litres of PRD02 on 10 February 2020 with a loyalty card, as the calculator sees it: 13.00, less 20% of it, and 3 points per post-discount dollar. */
  lemma FebruaryFuelCalculation()
    ensures var line := (BasketLineItem("PRD02", 10), ProductRepository.Catalogue["PRD02"]);
      ValidLines([line]) && CalculateSpec(Some([line]), Some([DiscountPromotionRepository.FuelDiscountPromo]),
        Some(PointsPromotionRepository.FuelPromo), true)
      == Success(CalculationResults.BasketCalculationResult(13.0, 2.6, 10.4, 31))
  {
    var line := (BasketLineItem("PRD02", 10), ProductRepository.Catalogue["PRD02"]);
    var lines := [line];
    var promos := [DiscountPromotionRepository.FuelDiscountPromo];
    var points := Some(PointsPromotionRepository.FuelPromo);
    ProductRepository.SeedCatalogueValid();
    assert !IsBlank("PRD02") by { assert "PRD02"[0] == 'P'; }
    assert ValidLines(lines);
    assert LineAmount(line) == 13.0;
    assert Fold("PRD02") == "PRD02";
    assert FindApplicableDiscount("PRD02", promos) == Some(promos[0]);
    assert (260.0).Floor == 260 && (1300.0).Floor == 1300 && (1040.0).Floor == 1040;
    Money.Round2OfCents(2.6);
    Money.Round2OfCents(13.0);
    Money.Round2OfCents(10.4);
    assert LineDiscount(promos, line) == 2.6;
    assert LineQualifying(promos, points, line) == 10.4;
    SumsStep(lines, 0, promos, points);
    assert lines[..1] == lines && lines[..0] == [];
    assert TotalOf(lines) == 13.0 && DiscountOf(lines, promos) == 2.6 && QualifyingOf(lines, promos, points) == 10.4;
    assert (31.2).Floor == 31;
    assert FirstOverlap(lines, promos).None?;
  }

  /** The catalogue lookup for a basket of 10 × PRD02: one product found, nothing missing, one line. */
  lemma FebruaryFuelLookup()
    ensures var basket := [BasketItem("PRD02", 10)];
      var product := ProductRepository.Catalogue["PRD02"];
      && ProductRepository.GetByIds(ProductRepository.Catalogue, Distinct(ProductIds(basket))) == Success(map["PRD02" := product])
      && MissingProductIds(basket, map["PRD02" := product]) == []
      && ResolvedLines(basket, map["PRD02" := product]) == Success([(BasketLineItem("PRD02", 10), product)])
  {
    var basket := [BasketItem("PRD02", 10)];
    var product := ProductRepository.Catalogue["PRD02"];
    var ids := ["PRD02"];
    assert ProductIds(basket) == ids;
    assert ids[..0] == [];
    assert Distinct(ids) == ids;
    assert Fold("PRD02") == "PRD02";
    var products := map["PRD02" := product];
    assert Absent(ids, products) == [];
    var line := (BasketLineItem("PRD02", 10), product);
    assert !IsBlank("PRD02") by { assert "PRD02"[0] == 'P'; }
    assert basket[1..] == [];
    assert BuildLineItems(basket[1..], products) == Success([]);
    assert [line] + [] == [line];
  }

  /** On 10 February 2020 the repositories answer DP001 and PP002, and the catalogue lookup finds PRD02. */
  lemma FebruaryFuelRepositories(request: CalculateBasketCommand)
    requires request.transactionDate == DateTime(2020, 2, 10, 0) && request.basket == Some([BasketItem("PRD02", 10)])
    ensures var products := map["PRD02" := ProductRepository.Catalogue["PRD02"]];
      ValidProductMap(products)
      && HandleWithSeed(request) == Handle(request, products,
        [DiscountPromotionRepository.FuelDiscountPromo], Some(PointsPromotionRepository.FuelPromo))
  {
    var products := map["PRD02" := ProductRepository.Catalogue["PRD02"]];
    var date := request.transactionDate;
    assert ValidProductMap(products) by {
      ProductRepository.SeedCatalogueValid();
      assert Fold("PRD02") == "PRD02";
    }
    assert DiscountPromotionRepository.GetActiveOnDate(date) == [DiscountPromotionRepository.FuelDiscountPromo] by {
      DiscountPromotionRepository.ActiveOnSeed(date);
    }
    assert PointsPromotionRepository.GetActiveOnDate(date) == Some(PointsPromotionRepository.FuelPromo) by {
      PointsPromotionRepository.NoPromotionBetweenWindows();
    }
    assert ProductRepository.GetByIds(ProductRepository.Catalogue, Distinct(ProductIds(request.basket.value))) == Success(products) by {
      FebruaryFuelLookup();
    }
  }

  /** The same purchase through the handler: the response echoes the request and carries the four figures. */
  lemma FebruaryFuelPurchase(customerId: Guid)
    ensures var request := CalculateBasketCommand(customerId, Some("CARD"), DateTime(2020, 2, 10, 0), Some([BasketItem("PRD02", 10)]));
      HandleWithSeed(request)
      == Success(CalculateBasketResult(customerId, Some("CARD"), DateTime(2020, 2, 10, 0), 13.0, 2.6, 10.4, 31))
  {
    var basket := [BasketItem("PRD02", 10)];
    var request := CalculateBasketCommand(customerId, Some("CARD"), DateTime(2020, 2, 10, 0), Some(basket));
    var products := map["PRD02" := ProductRepository.Catalogue["PRD02"]];
    var promos := [DiscountPromotionRepository.FuelDiscountPromo];
    var points := Some(PointsPromotionRepository.FuelPromo);
    FebruaryFuelRepositories(request);
    FebruaryFuelLookup();
    assert HasLoyaltyCard(Some("CARD")) by { assert !IsWhiteSpace("CARD"[0]); }
    FebruaryFuelCalculation();
    HandleIsCalculation(request, products, promos, points);
  }
}
