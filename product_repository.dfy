/** The in-memory product catalogue and its two lookups. */
module ProductRepository {
  import opened Wrappers
  import opened Text
  import opened Money
  import opened Errors
  import opened Products

  /** The seeded catalogue, keyed by case-folded id (the dictionary's `OrdinalIgnoreCase` comparer). */
  const Catalogue: map<string, Product> := map[
    "PRD01" := Product("PRD01", "Vortex 95", Fuel, 1.2),
    "PRD02" := Product("PRD02", "Vortex 98", Fuel, 1.3),
    "PRD03" := Product("PRD03", "Diesel", Fuel, 1.1),
    "PRD04" := Product("PRD04", "Twix 55g", Shop, 2.3),
    "PRD05" := Product("PRD05", "Mars 72g", Shop, 5.1),
    "PRD06" := Product("PRD06", "SNICKERS 72G", Shop, 3.4),
    "PRD07" := Product("PRD07", "Bounty 3 63g", Shop, 6.9),
    "PRD08" := Product("PRD08", "Snickers 50g", Shop, 4.0)]

  /** `GetByIdAsync`: the product whose id equals `productId` ignoring case, or null. */
  function GetById(catalogue: map<string, Product>, productId: string): (r: Option<Product>)
    ensures r.Some? <==> Fold(productId) in catalogue
    ensures r.Some? ==> r.value == catalogue[Fold(productId)]
  {
    if Fold(productId) in catalogue then Some(catalogue[Fold(productId)]) else None
  }

  /** Two requested ids name the same catalogue entry. */
  predicate RequestsTwice(catalogue: map<string, Product>, ids: seq<string>) {
    exists i, j :: 0 <= i < j < |ids| && Fold(ids[i]) == Fold(ids[j]) && Fold(ids[j]) in catalogue
  }

  /**
   * `GetByIdsAsync`: the requested ids present in the catalogue, in a dictionary
   * with the `OrdinalIgnoreCase` comparer. `ToDictionary` adds them one by one
   * and throws on the first id whose key is already there.
   */
  function GetByIds(catalogue: map<string, Product>, ids: seq<string>): (r: Result<map<string, Product>, Error>)
    ensures r.Failure? ==> exists j :: 0 <= j < |ids| && Fold(ids[j]) in catalogue && r.error == DuplicateKey(ids[j])
  {
    if |ids| == 0 then Success(map[])
    else
      var n := |ids| - 1;
      var id := ids[n];
      match GetByIds(catalogue, ids[..n])
      case Failure(e) =>
        assert exists j :: 0 <= j < |ids| && Fold(ids[j]) in catalogue && e == DuplicateKey(ids[j]) by {
          var j :| 0 <= j < n && Fold(ids[..n][j]) in catalogue && e == DuplicateKey(ids[..n][j]);
          assert ids[j] == ids[..n][j];
        }
        Failure(e)
      case Success(found) =>
        if Fold(id) !in catalogue then Success(found)
        else if Fold(id) in found then Failure(DuplicateKey(id))
        else Success(found[Fold(id) := catalogue[Fold(id)]])
  }

  /** On success the dictionary holds exactly the requested ids found in the catalogue, each with its catalogue product. */
  lemma {:induction false} GetByIdsFindsRequested(catalogue: map<string, Product>, ids: seq<string>)
    ensures var r := GetByIds(catalogue, ids);
      r.Success? ==>
        && (forall k :: k in r.value <==> k in catalogue && exists i :: 0 <= i < |ids| && Fold(ids[i]) == k)
        && (forall k :: k in r.value ==> r.value[k] == catalogue[k])
  {
    if |ids| > 0 {
      var n := |ids| - 1;
      var prefix := ids[..n];
      GetByIdsFindsRequested(catalogue, prefix);
      var r := GetByIds(catalogue, ids);
      if r.Success? {
        forall k | k in catalogue && (exists i :: 0 <= i < |ids| && Fold(ids[i]) == k)
          ensures k in r.value
        {
          var i :| 0 <= i < |ids| && Fold(ids[i]) == k;
          if i < n { assert Fold(prefix[i]) == k; }
        }
        forall k | k in r.value
          ensures exists i :: 0 <= i < |ids| && Fold(ids[i]) == k
        {
          if k != Fold(ids[n]) {
            var i :| 0 <= i < |prefix| && Fold(prefix[i]) == k;
            assert ids[i] == prefix[i];
          }
        }
      }
    }
  }

  /** Some id before position `n` names the same entry as `key`. */
  predicate RequestedBefore(ids: seq<string>, n: int, key: string) {
    exists i :: 0 <= i < n && i < |ids| && Fold(ids[i]) == key
  }

  /** A repeat in a non-empty list is a repeat among all but the last id, or the last id repeating an earlier one. */
  lemma RequestsTwiceByLast(catalogue: map<string, Product>, ids: seq<string>)
    requires |ids| > 0
    ensures var n := |ids| - 1;
      RequestsTwice(catalogue, ids) <==>
        RequestsTwice(catalogue, ids[..n]) || (Fold(ids[n]) in catalogue && RequestedBefore(ids, n, Fold(ids[n])))
  {
    var n := |ids| - 1;
    var prefix := ids[..n];
    assert forall i :: 0 <= i < n ==> prefix[i] == ids[i];
    if RequestsTwice(catalogue, ids) {
      var i, j :| 0 <= i < j < |ids| && Fold(ids[i]) == Fold(ids[j]) && Fold(ids[j]) in catalogue;
      if j < n {
        assert Fold(prefix[i]) == Fold(prefix[j]);
      }
    }
    if RequestsTwice(catalogue, prefix) {
      var i, j :| 0 <= i < j < |prefix| && Fold(prefix[i]) == Fold(prefix[j]) && Fold(prefix[j]) in catalogue;
      assert Fold(ids[i]) == Fold(ids[j]);
    }
  }

  /** The lookup throws exactly when two requested ids name the same catalogue entry. */
  lemma {:induction false} GetByIdsFailsOnRepeat(catalogue: map<string, Product>, ids: seq<string>)
    ensures GetByIds(catalogue, ids).Success? <==> !RequestsTwice(catalogue, ids)
  {
    if |ids| > 0 {
      var n := |ids| - 1;
      var prefix := ids[..n];
      var id := ids[n];
      GetByIdsFailsOnRepeat(catalogue, prefix);
      GetByIdsFindsRequested(catalogue, prefix);
      RequestsTwiceByLast(catalogue, ids);
      var found := GetByIds(catalogue, prefix);
      if found.Success? && Fold(id) in catalogue {
        assert Fold(id) in found.value <==> RequestedBefore(ids, n, Fold(id)) by {
          if Fold(id) in found.value {
            var i :| 0 <= i < |prefix| && Fold(prefix[i]) == Fold(id);
            assert Fold(ids[i]) == Fold(id);
          }
          if RequestedBefore(ids, n, Fold(id)) {
            var i :| 0 <= i < n && i < |ids| && Fold(ids[i]) == Fold(id);
            assert Fold(prefix[i]) == Fold(id);
          }
        }
      }
    }
  }

  /** Every seeded product is stored under its own id, which is already case-folded, and is valid. */
  lemma SeedCatalogueValid()
    ensures forall k :: k in Catalogue ==> Catalogue[k].productId == k && Fold(k) == k && Catalogue[k].Valid()
  {
    forall k | k in Catalogue
      ensures Catalogue[k].productId == k && Fold(k) == k && Catalogue[k].Valid()
    {
      var p := Catalogue[k];
      assert !IsBlank(p.productId) by { assert p.productId[0] == 'P'; }
      assert !IsBlank(p.name) by { assert !IsWhiteSpace(p.name[0]); }
      assert Fold(k) == k by { assert |k| == 5 && k[..3] == "PRD"; }
    }
  }

  /** Every seeded price is a whole number of cents. */
  lemma SeedPricesInCents()
    ensures forall k :: k in Catalogue ==> IsCents(Catalogue[k].unitPrice)
  {
    assert (120.0).Floor == 120 && (130.0).Floor == 130 && (110.0).Floor == 110 && (230.0).Floor == 230;
    assert (510.0).Floor == 510 && (340.0).Floor == 340 && (690.0).Floor == 690 && (400.0).Floor == 400;
  }

  /** PRD01 to PRD03 are fuel and PRD04 to PRD08 shop items. */
  lemma SeedCategories()
    ensures forall k :: k in Catalogue ==> (Catalogue[k].category == Fuel <==> k in {"PRD01", "PRD02", "PRD03"})
    ensures |Catalogue.Keys| == 8
  {
  }

  /** Ids that differ only in case collide in the dictionary: asking for "prd01" and "PRD01" throws on the second. */
  lemma CaseVariantsCollide()
    ensures GetByIds(Catalogue, ["prd01", "PRD01"]) == Failure(DuplicateKey("PRD01"))
  {
    assert Fold("prd01") == "PRD01" && Fold("PRD01") == "PRD01";
    assert ["prd01", "PRD01"][..1] == ["prd01"] && ["prd01"][..0] == [];
  }
}
