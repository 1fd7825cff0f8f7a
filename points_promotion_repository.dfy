/** The in-memory points promotions and the by-date query. */
module PointsPromotionRepository {
  import opened Wrappers
  import opened Text
  import opened Calendar
  import opened Products
  import opened PointsPromotions

  /** PP001: every category, 2 points per dollar, 1 to 30 January 2020. */
  const NewYearPromo := PointsPromotion("PP001", "New Year Promo", Day(2020, 1, 1), Day(2020, 1, 30), None, 2)

  /** PP002: fuel only, 3 points per dollar, 5 to 15 February 2020. */
  const FuelPromo := PointsPromotion("PP002", "Fuel Promo", Day(2020, 2, 5), Day(2020, 2, 15), Some(Fuel), 3)

  /** PP003: shop items only, 4 points per dollar, 1 to 20 March 2020. */
  const ShopPromo := PointsPromotion("PP003", "Shop Promo", Day(2020, 3, 1), Day(2020, 3, 20), Some(Shop), 4)

  /** The seeded promotions, in seed order. */
  const Seed := [NewYearPromo, FuelPromo, ShopPromo]

  /** `promotions.FirstOrDefault(p => p.IsActiveOn(date))`. */
  function FirstActive(promotions: seq<PointsPromotion>, date: DateTime): (r: Option<PointsPromotion>)
    ensures r.None? <==> forall j :: 0 <= j < |promotions| ==> !promotions[j].IsActiveOn(date)
    ensures r.Some? ==> exists k :: (0 <= k < |promotions| && promotions[k] == r.value && r.value.IsActiveOn(date)
      && forall j :: 0 <= j < k ==> !promotions[j].IsActiveOn(date))
  {
    if |promotions| == 0 then None
    else if promotions[0].IsActiveOn(date) then Some(promotions[0])
    else
      var r := FirstActive(promotions[1..], date);
      assert forall j :: 1 <= j < |promotions| ==> promotions[j] == promotions[1..][j - 1];
      assert r.Some? ==> exists k :: (0 <= k < |promotions| && promotions[k] == r.value && r.value.IsActiveOn(date)
        && forall j :: 0 <= j < k ==> !promotions[j].IsActiveOn(date)) by {
        if r.Some? {
          var k :| 0 <= k < |promotions[1..]| && promotions[1..][k] == r.value && r.value.IsActiveOn(date)
            && forall j :: 0 <= j < k ==> !promotions[1..][j].IsActiveOn(date);
          assert promotions[k + 1] == r.value;
        }
      }
      r
  }

  /** `GetActiveOnDateAsync`: the first seeded promotion active on the date, or null. */
  function GetActiveOnDate(date: DateTime): (r: Option<PointsPromotion>)
    ensures r.None? <==> forall j :: 0 <= j < |Seed| ==> !Seed[j].IsActiveOn(date)
  {
    FirstActive(Seed, date)
  }

  /** Every seeded promotion is what its constructor produces. */
  lemma SeedIsValid()
    ensures forall j :: 0 <= j < |Seed| ==> Seed[j].Valid()
  {
    assert !IsBlank("PP001") && !IsBlank("PP002") && !IsBlank("PP003") by {
      assert "PP001"[0] == 'P' && "PP002"[0] == 'P' && "PP003"[0] == 'P';
    }
    assert !IsBlank("New Year Promo") && !IsBlank("Fuel Promo") && !IsBlank("Shop Promo") by {
      assert "New Year Promo"[0] == 'N' && "Fuel Promo"[0] == 'F' && "Shop Promo"[0] == 'S';
    }
  }

  /** The seeded windows are pairwise disjoint: no two promotions are active at the same moment. */
  lemma SeedWindowsDisjoint(date: DateTime)
    ensures forall i, j :: 0 <= i < j < |Seed| ==> !(Seed[i].IsActiveOn(date) && Seed[j].IsActiveOn(date))
  {
  }

  /** Hence the query returns a promotion exactly when it is the one active on the date. */
  lemma GetActiveOnDateIsTheActiveOne(date: DateTime, p: PointsPromotion)
    ensures GetActiveOnDate(date) == Some(p) <==> p in Seed && p.IsActiveOn(date)
  {
    SeedWindowsDisjoint(date);
    if p in Seed && p.IsActiveOn(date) {
      var r := GetActiveOnDate(date);
      var k :| 0 <= k < |Seed| && Seed[k] == r.value && r.value.IsActiveOn(date);
      var m :| 0 <= m < |Seed| && Seed[m] == p;
    }
  }

  /** On a date outside every window there is no points promotion. */
  lemma NoPromotionBetweenWindows()
    ensures GetActiveOnDate(DateTime(2020, 1, 31, 0)) == None
    ensures GetActiveOnDate(DateTime(2020, 2, 20, 0)) == None
    ensures GetActiveOnDate(DateTime(2020, 2, 10, 0)) == Some(FuelPromo)
  {
    assert Seed[1..] == [FuelPromo, ShopPromo] && Seed[1..][1..] == [ShopPromo];
    var d := DateTime(2020, 2, 10, 0);
    assert !NewYearPromo.IsActiveOn(d) && FuelPromo.IsActiveOn(d);
    assert FirstActive(Seed[1..], d) == Some(FuelPromo);
  }
}
