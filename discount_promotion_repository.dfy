/** The in-memory discount promotions and the by-date query. */
module DiscountPromotionRepository {
  import opened Text
  import opened Calendar
  import opened DiscountPromotions
  import opened BasketCalculator

  /** DP001: 20% on PRD02 from 1 January to 15 February 2020. */
  const FuelDiscountPromo := DiscountPromotion("DP001", "Fuel Discount Promo", Day(2020, 1, 1), Day(2020, 2, 15), 20.0, {"PRD02"})

  /** DP002: 15% on no product from 2 to 20 March 2020. */
  const HappyPromo := DiscountPromotion("DP002", "Happy Promo", Day(2020, 3, 2), Day(2020, 3, 20), 15.0, {})

  /** The seeded promotions, in seed order. */
  const Seed := [FuelDiscountPromo, HappyPromo]

  /** `promotions.Where(p => p.IsActiveOn(date))`, in list order. */
  function ActiveOn(promotions: seq<DiscountPromotion>, date: DateTime): (r: seq<DiscountPromotion>)
    ensures forall p :: p in r <==> p in promotions && p.IsActiveOn(date)
    ensures |r| <= |promotions|
  {
    if |promotions| == 0 then []
    else (if promotions[0].IsActiveOn(date) then [promotions[0]] else []) + ActiveOn(promotions[1..], date)
  }

  /**
   * `Where` keeps order and multiplicity: filtering a concatenation filters each
   * part, and a single promotion is kept exactly when it is active.
   */
  lemma {:induction false} ActiveOnKeepsOrder(a: seq<DiscountPromotion>, b: seq<DiscountPromotion>, date: DateTime)
    ensures ActiveOn(a + b, date) == ActiveOn(a, date) + ActiveOn(b, date)
    ensures |a| == 1 ==> ActiveOn(a, date) == if a[0].IsActiveOn(date) then a else []
    decreases |a|
  {
    if |a| == 0 {
      assert a + b == b;
    } else {
      assert (a + b)[0] == a[0] && (a + b)[1..] == a[1..] + b;
      ActiveOnKeepsOrder(a[1..], b, date);
      if |a| == 1 {
        assert a[1..] == [];
      }
    }
  }

  /** `GetActiveOnDateAsync`: the seeded promotions active on the date. */
  function GetActiveOnDate(date: DateTime): (r: seq<DiscountPromotion>)
    ensures forall p :: p in r <==> p in Seed && p.IsActiveOn(date)
  {
    ActiveOn(Seed, date)
  }

  /** The query over the seed, spelled out promotion by promotion. */
  lemma ActiveOnSeed(date: DateTime)
    ensures GetActiveOnDate(date)
      == (if FuelDiscountPromo.IsActiveOn(date) then [FuelDiscountPromo] else [])
       + (if HappyPromo.IsActiveOn(date) then [HappyPromo] else [])
  {
    assert Seed[1..] == [HappyPromo] && Seed[1..][1..] == [];
    var tail := if HappyPromo.IsActiveOn(date) then [HappyPromo] else [];
    assert ActiveOn([HappyPromo], date) == tail + ActiveOn([], date);
    assert tail + [] == tail;
  }

  /** Both seeded promotions are what their constructor produces. */
  lemma SeedIsValid()
    ensures ValidPromotions(Seed)
  {
    assert !IsBlank("DP001") by { assert "DP001"[0] == 'D'; }
    assert !IsBlank("DP002") by { assert "DP002"[0] == 'D'; }
    assert !IsBlank("Fuel Discount Promo") by { assert "Fuel Discount Promo"[0] == 'F'; }
    assert !IsBlank("Happy Promo") by { assert "Happy Promo"[0] == 'H'; }
    assert Fold("PRD02") == "PRD02";
  }

  /** The seed's windows: DP001 alone in January to mid-February, DP002 alone in most of March, none in between. */
  lemma SeedWindows()
    ensures GetActiveOnDate(DateTime(2020, 1, 1, 0)) == [FuelDiscountPromo]
    ensures GetActiveOnDate(DateTime(2020, 2, 15, 86399)) == [FuelDiscountPromo]
    ensures GetActiveOnDate(DateTime(2020, 2, 20, 0)) == []
    ensures GetActiveOnDate(DateTime(2020, 3, 20, 43200)) == [HappyPromo]
  {
    ActiveOnSeed(DateTime(2020, 1, 1, 0));
    ActiveOnSeed(DateTime(2020, 2, 15, 86399));
    ActiveOnSeed(DateTime(2020, 2, 20, 0));
    ActiveOnSeed(DateTime(2020, 3, 20, 43200));
  }

  /** The seeded eligible sets are disjoint, so no product is ever covered twice on any date. */
  lemma SeedNeverOverlaps(date: DateTime, productId: string)
    ensures !CoveredTwice(productId, GetActiveOnDate(date))
  {
    ActiveOnSeed(date);
    assert !HappyPromo.AppliesToProduct(productId);
  }
}
