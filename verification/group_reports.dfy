/** The reports of the Reports tab that group one table, or one join, by a text column
    (app.py lines 271-300, 320-340 and 387-397): providers and receivers per city, listings per
    provider type, provider contacts in a city, listings per city, common food types and claims
    per meal type. */
module GroupReports {
  import opened Outcomes
  import opened Seqs
  import opened Grouping
  import opened Schema

  function ProviderCity(p: Provider): string { p.city }
  function ReceiverCity(r: Receiver): string { r.city }
  function ListingLocation(l: Listing): string { l.location }
  function ListingFoodType(l: Listing): string { l.foodType }

  /** Report 1: `SELECT City, COUNT(*) FROM providers GROUP BY City ORDER BY 2 DESC`. */
  function ProvidersPerCity(ps: seq<Provider>): (r: seq<Group<string>>)
    ensures IsCountOf(r, Map(ps, ProviderCity))
    ensures SumTotals(r) == |ps|
  {
    GroupCount(Map(ps, ProviderCity))
  }

  /** Report 2: the same count over `receivers`. */
  function ReceiversPerCity(rs: seq<Receiver>): (r: seq<Group<string>>)
    ensures IsCountOf(r, Map(rs, ReceiverCity))
    ensures SumTotals(r) == |rs|
  {
    GroupCount(Map(rs, ReceiverCity))
  }

  /** Report 7: listings per `Location`. */
  function ListingsPerCity(ls: seq<Listing>): (r: seq<Group<string>>)
    ensures IsCountOf(r, Map(ls, ListingLocation))
    ensures SumTotals(r) == |ls|
  {
    GroupCount(Map(ls, ListingLocation))
  }

  /** Report 8: listings per `Food_Type`. */
  function CommonFoodTypes(ls: seq<Listing>): (r: seq<Group<string>>)
    ensures IsCountOf(r, Map(ls, ListingFoodType))
    ensures SumTotals(r) == |ls|
  {
    GroupCount(Map(ls, ListingFoodType))
  }

  /** A `COUNT(*)` report over `keys`: adding one more row with key `x` raises the cell of `x` by
      one and leaves every other cell as it was. */
  lemma CountReportAppend<K>(keys: seq<K>, x: K, k: K)
    ensures TotalOf(GroupCount(keys + [x]), k) == TotalOf(GroupCount(keys), k) + (if k == x then 1 else 0)
  {
    CountTotalOf(GroupCount(keys + [x]), keys + [x], k);
    CountTotalOf(GroupCount(keys), keys, k);
    CountConcat(keys, [x], k);
    assert [x][1..] == [];
  }

  /** Creating a provider adds one to the count of its city in report 1 and to no other city. */
  lemma CreateProviderCountsOnce(ps: seq<Provider>, p: Provider, city: string)
    ensures TotalOf(ProvidersPerCity(ps + [p]), city)
            == TotalOf(ProvidersPerCity(ps), city) + (if city == p.city then 1 else 0)
  {
    MapAppend(ps, p, ProviderCity);
    CountReportAppend(Map(ps, ProviderCity), p.city, city);
  }

  /** Creating a listing adds one to the count of its location in report 7 and of its food
      type in report 8, and to no other group of either. */
  lemma CreateListingCountsOnce(ls: seq<Listing>, l: Listing, city: string, foodType: string)
    ensures TotalOf(ListingsPerCity(ls + [l]), city)
            == TotalOf(ListingsPerCity(ls), city) + (if city == l.location then 1 else 0)
    ensures TotalOf(CommonFoodTypes(ls + [l]), foodType)
            == TotalOf(CommonFoodTypes(ls), foodType) + (if foodType == l.foodType then 1 else 0)
  {
    MapAppend(ls, l, ListingLocation);
    CountReportAppend(Map(ls, ListingLocation), l.location, city);
    MapAppend(ls, l, ListingFoodType);
    CountReportAppend(Map(ls, ListingFoodType), l.foodType, foodType);
  }

  /** `COALESCE(v, fallback)`. */
  function Coalesce(v: Option<string>, fallback: string): string {
    match v
    case Some(s) => s
    case None => fallback
  }

  /** The provider types the left join of report 3 files one listing under when providers
      match it: one per provider with the listing's `Provider_ID`, that provider's `Type`, or the
      listing's own `Provider_Type` when the provider's is NULL. */
  function JoinedTypes(l: Listing, ps: seq<Provider>): (r: seq<string>)
    ensures |r| == KeyCount(ps, ProviderKey, l.providerId)
    ensures forall i :: 0 <= i < |r| ==>
              exists k :: 0 <= k < |ps| && ps[k].providerId == l.providerId
                          && r[i] == Coalesce(ps[k].kind, l.providerType)
    ensures var m := RowsWithKey(ps, ProviderKey, l.providerId);
            |r| == |m| && forall i :: 0 <= i < |r| ==> r[i] == Coalesce(m[i].kind, l.providerType)
  {
    var joined := RowsWithKey(ps, ProviderKey, l.providerId);
    var r := Map(joined, (p: Provider) => Coalesce(p.kind, l.providerType));
    assert forall i :: 0 <= i < |r| ==>
              exists k :: 0 <= k < |ps| && ps[k].providerId == l.providerId
                          && r[i] == Coalesce(ps[k].kind, l.providerType) by {
      forall i | 0 <= i < |r|
        ensures exists k :: 0 <= k < |ps| && ps[k].providerId == l.providerId
                            && r[i] == Coalesce(ps[k].kind, l.providerType) {
        assert joined[i] in ps && ProviderKey(joined[i]) == l.providerId;
      }
    }
    r
  }

  /** All the rows report 3's left join yields for one listing, as their group keys: the joined
      providers' types, or the listing's own `Provider_Type` when no provider matches (the
      provider columns are then NULL and `COALESCE` falls back). */
  function TypesOfListing(l: Listing, ps: seq<Provider>): (r: seq<string>)
    ensures |r| == if HasKey(ps, ProviderKey, l.providerId) then KeyCount(ps, ProviderKey, l.providerId) else 1
    ensures !HasKey(ps, ProviderKey, l.providerId) ==> r == [l.providerType]
    ensures var m := RowsWithKey(ps, ProviderKey, l.providerId);
            HasKey(ps, ProviderKey, l.providerId) ==>
              |r| == |m| && forall i :: 0 <= i < |r| ==> r[i] == Coalesce(m[i].kind, l.providerType)
  {
    var joined := JoinedTypes(l, ps);
    if |joined| == 0 then [l.providerType] else joined
  }

  /** The group keys of every row of report 3's join, listing by listing. */
  function ListingTypes(ls: seq<Listing>, ps: seq<Provider>): (r: seq<string>)
    ensures |r| >= |ls|
    decreases |ls|
  {
    if |ls| == 0 then [] else TypesOfListing(ls[0], ps) + ListingTypes(ls[1..], ps)
  }

  /** Report 3: listings per provider type, `COALESCE(p.Type, fl.Provider_Type)`, over
      `food_listings LEFT JOIN providers`. */
  function ListingsPerProviderType(ls: seq<Listing>, ps: seq<Provider>): (r: seq<Group<string>>)
    ensures IsCountOf(r, ListingTypes(ls, ps))
    ensures SumTotals(r) >= |ls|
  {
    GroupCount(ListingTypes(ls, ps))
  }

  /** While provider ids are unique, every listing is counted exactly once in report 3. */
  lemma {:induction false} ProviderTypeCountsEachListingOnce(ls: seq<Listing>, ps: seq<Provider>)
    requires UniqueKeys(ps, ProviderKey)
    ensures SumTotals(ListingsPerProviderType(ls, ps)) == |ls|
    ensures |ListingTypes(ls, ps)| == |ls|
    decreases |ls|
  {
    if |ls| > 0 {
      UniqueKeyCount(ps, ProviderKey, ls[0].providerId);
      ProviderTypeCountsEachListingOnce(ls[1..], ps);
    }
  }

  /** With unique provider ids, a listing whose provider exists is filed under that provider's
      `Type`, or under its own `Provider_Type` when the provider's is NULL. */
  lemma ListingTypeResolved(l: Listing, ps: seq<Provider>, k: nat)
    requires UniqueKeys(ps, ProviderKey)
    requires k < |ps| && ps[k].providerId == l.providerId
    ensures TypesOfListing(l, ps) == [Coalesce(ps[k].kind, l.providerType)]
  {
    UniqueKeyCount(ps, ProviderKey, l.providerId);
    var joined := JoinedTypes(l, ps);
    assert |joined| == 1;
    var m :| 0 <= m < |ps| && ps[m].providerId == l.providerId
             && joined[0] == Coalesce(ps[m].kind, l.providerType);
    assert m == k by {
      assert ProviderKey(ps[m]) == ProviderKey(ps[k]);
    }
  }

  /** Listing `l` belongs under provider type `t` in report 3: a provider with its `Provider_ID`
      has `Type` `t` (or a NULL `Type` while the listing's own `Provider_Type` is `t`), or no
      provider has that id and the listing's own `Provider_Type` is `t`. */
  ghost predicate ResolvesTo(l: Listing, ps: seq<Provider>, t: string) {
    || (exists k :: 0 <= k < |ps| && ps[k].providerId == l.providerId && Coalesce(ps[k].kind, l.providerType) == t)
    || (!HasKey(ps, ProviderKey, l.providerId) && l.providerType == t)
  }

  /** Number of listings that belong under provider type `t`: the reference count for report 3. */
  ghost function ListingsOfType(ls: seq<Listing>, ps: seq<Provider>, t: string): nat
    decreases |ls|
  {
    if |ls| == 0 then 0 else (if ResolvesTo(ls[0], ps, t) then 1 else 0) + ListingsOfType(ls[1..], ps, t)
  }

  lemma TypesOfListingUnique(l: Listing, ps: seq<Provider>, t: string)
    requires UniqueKeys(ps, ProviderKey)
    ensures Count(TypesOfListing(l, ps), t) == if ResolvesTo(l, ps, t) then 1 else 0
  {
    if HasKey(ps, ProviderKey, l.providerId) {
      var k :| 0 <= k < |ps| && ProviderKey(ps[k]) == l.providerId;
      ListingTypeResolved(l, ps, k);
      if ResolvesTo(l, ps, t) {
        var m :| 0 <= m < |ps| && ps[m].providerId == l.providerId && Coalesce(ps[m].kind, l.providerType) == t;
        assert m == k by {
          assert ProviderKey(ps[m]) == ProviderKey(ps[k]);
        }
      }
      assert [Coalesce(ps[k].kind, l.providerType)][1..] == [];
    } else {
      assert [l.providerType][1..] == [];
    }
  }

  lemma {:induction false} ListingTypesCount(ls: seq<Listing>, ps: seq<Provider>, t: string)
    requires UniqueKeys(ps, ProviderKey)
    ensures Count(ListingTypes(ls, ps), t) == ListingsOfType(ls, ps, t)
    decreases |ls|
  {
    if |ls| > 0 {
      CountConcat(TypesOfListing(ls[0], ps), ListingTypes(ls[1..], ps), t);
      TypesOfListingUnique(ls[0], ps, t);
      ListingTypesCount(ls[1..], ps, t);
    }
  }

  /** With unique provider ids, report 3 counts for each provider type exactly the listings that
      belong under it; a type no listing resolves to has no row. */
  lemma ListingsPerProviderTypeCounts(ls: seq<Listing>, ps: seq<Provider>, t: string)
    requires UniqueKeys(ps, ProviderKey)
    ensures TotalOf(ListingsPerProviderType(ls, ps), t) == ListingsOfType(ls, ps, t)
    ensures t in KeySet(ListingsPerProviderType(ls, ps)) <==> ListingsOfType(ls, ps, t) > 0
  {
    CountTotalOf(ListingsPerProviderType(ls, ps), ListingTypes(ls, ps), t);
    ListingTypesCount(ls, ps, t);
  }

  /** One row of report 4. */
  datatype ContactRow = ContactRow(name: string, contact: string, kind: Option<string>, address: string)

  function ContactRowOf(p: Provider): ContactRow {
    ContactRow(p.name, p.contact, p.kind, p.address)
  }

  /** The providers whose `City` equals `city`, in storage order. */
  function InCity(ps: seq<Provider>, city: string): (r: seq<Provider>)
    ensures IsSubseq(r, ps)
    ensures forall i :: 0 <= i < |r| ==> r[i].city == city
    ensures forall k :: 0 <= k < |ps| && ps[k].city == city ==> ps[k] in r
    ensures |r| == Count(Map(ps, ProviderCity), city)
    decreases |ps|
  {
    if |ps| == 0 then []
    else
      MapTail(ps, ProviderCity);
      var rest := InCity(ps[1..], city);
      assert forall k :: 1 <= k < |ps| && ps[k].city == city ==> ps[k] in rest by {
        forall k | 1 <= k < |ps| && ps[k].city == city ensures ps[k] in rest {
          assert ps[1..][k - 1] == ps[k];
        }
      }
      if ps[0].city == city then [ps[0]] + rest else rest
  }

  /** Each provider of the city is kept as often as it is stored, and no other provider. */
  lemma {:induction false} InCityMultiset(ps: seq<Provider>, city: string, p: Provider)
    ensures multiset(InCity(ps, city))[p] == if p.city == city then multiset(ps)[p] else 0
    decreases |ps|
  {
    if |ps| > 0 {
      assert ps == [ps[0]] + ps[1..];
      InCityMultiset(ps[1..], city, p);
    }
  }

  /** The rows of report 4 are the projections of the providers in the city, and of no other. */
  lemma ContactsOfCity(ps: seq<Provider>, city: string)
    ensures forall i :: 0 <= i < |Map(InCity(ps, city), ContactRowOf)| ==>
              exists k :: 0 <= k < |ps| && ps[k].city == city && Map(InCity(ps, city), ContactRowOf)[i] == ContactRowOf(ps[k])
    ensures forall k :: 0 <= k < |ps| && ps[k].city == city ==> ContactRowOf(ps[k]) in Map(InCity(ps, city), ContactRowOf)
  {
    var rows := InCity(ps, city);
    var r := Map(rows, ContactRowOf);
    forall i | 0 <= i < |r|
      ensures exists k :: 0 <= k < |ps| && ps[k].city == city && r[i] == ContactRowOf(ps[k]) {
      SubseqMember(rows, ps, i);
    }
    forall k | 0 <= k < |ps| && ps[k].city == city ensures ContactRowOf(ps[k]) in r {
      var j :| 0 <= j < |rows| && rows[j] == ps[k];
      assert r[j] == ContactRowOf(ps[k]);
    }
  }

  /** Report 4: the name, contact, type and address of the providers in the city typed in;
      nothing is queried while the field is empty. */
  function ProviderContacts(ps: seq<Provider>, city: string): (r: seq<ContactRow>)
    ensures city == "" ==> r == []
    ensures forall i :: 0 <= i < |r| ==>
              exists k :: 0 <= k < |ps| && ps[k].city == city && r[i] == ContactRowOf(ps[k])
    ensures city != "" ==> forall k :: 0 <= k < |ps| && ps[k].city == city ==> ContactRowOf(ps[k]) in r
    ensures city != "" ==> |r| == |InCity(ps, city)| == Count(Map(ps, ProviderCity), city)
  {
    if city == "" then []
    else
      ContactsOfCity(ps, city);
      Map(InCity(ps, city), ContactRowOf)
  }
  /** Number of providers in `city` whose projection is `x`: the reference count for report 4. */
  ghost function ContactsIn(ps: seq<Provider>, city: string, x: ContactRow): nat
    decreases |ps|
  {
    if |ps| == 0 then 0
    else (if ps[0].city == city && ContactRowOf(ps[0]) == x then 1 else 0) + ContactsIn(ps[1..], city, x)
  }

  lemma {:induction false} ContactsOfCityCount(ps: seq<Provider>, city: string, x: ContactRow)
    ensures multiset(Map(InCity(ps, city), ContactRowOf))[x] == ContactsIn(ps, city, x)
    decreases |ps|
  {
    if |ps| > 0 {
      ContactsOfCityCount(ps[1..], city, x);
      var rest := InCity(ps[1..], city);
      if ps[0].city == city {
        var whole := [ps[0]] + rest;
        MapTail(whole, ContactRowOf);
        assert whole[1..] == rest;
        assert Map(whole, ContactRowOf) == [ContactRowOf(ps[0])] + Map(rest, ContactRowOf);
      }
    }
  }

  /** Report 4 shows each projected row as often as providers of the city project to it: two
      providers with the same name, contact, type and address give two equal rows. */
  lemma ProviderContactsMultiset(ps: seq<Provider>, city: string, x: ContactRow)
    ensures city != "" ==> multiset(ProviderContacts(ps, city))[x] == ContactsIn(ps, city, x)
    ensures city == "" ==> multiset(ProviderContacts(ps, city))[x] == 0
  {
    ContactsOfCityCount(ps, city, x);
  }


  /** The meal types the inner join of report 13 files one claim under: one per listing with the
      claim's `Food_ID`. */
  function MealTypesOf(c: Claim, ls: seq<Listing>): (r: seq<string>)
    ensures |r| == KeyCount(ls, ListingKey, c.foodId)
    ensures forall i :: 0 <= i < |r| ==>
              exists k :: 0 <= k < |ls| && ls[k].foodId == c.foodId && r[i] == ls[k].mealType
  {
    var joined := RowsWithKey(ls, ListingKey, c.foodId);
    var r := Map(joined, (l: Listing) => l.mealType);
    assert forall i :: 0 <= i < |r| ==>
              exists k :: 0 <= k < |ls| && ls[k].foodId == c.foodId && r[i] == ls[k].mealType by {
      forall i | 0 <= i < |r|
        ensures exists k :: 0 <= k < |ls| && ls[k].foodId == c.foodId && r[i] == ls[k].mealType {
        assert joined[i] in ls && ListingKey(joined[i]) == c.foodId;
      }
    }
    r
  }

  /** The group keys of every row of report 13's join, claim by claim. */
  function ClaimMealTypes(cs: seq<Claim>, ls: seq<Listing>): seq<string>
    decreases |cs|
  {
    if |cs| == 0 then [] else MealTypesOf(cs[0], ls) + ClaimMealTypes(cs[1..], ls)
  }

  /** Report 13: claims per `Meal_Type` of the claimed listing, over `claims JOIN food_listings`. */
  function ClaimsByMealType(cs: seq<Claim>, ls: seq<Listing>): (r: seq<Group<string>>)
    ensures IsCountOf(r, ClaimMealTypes(cs, ls))
  {
    GroupCount(ClaimMealTypes(cs, ls))
  }

  /** The claim is for a listing whose `Meal_Type` is `meal`. */
  ghost predicate ClaimedAs(c: Claim, ls: seq<Listing>, meal: string) {
    exists k :: 0 <= k < |ls| && ls[k].foodId == c.foodId && ls[k].mealType == meal
  }

  /** Number of claims for a listing of meal type `meal`: the reference count for report 13. */
  ghost function ClaimsWithMeal(cs: seq<Claim>, ls: seq<Listing>, meal: string): nat
    decreases |cs|
  {
    if |cs| == 0 then 0 else (if ClaimedAs(cs[0], ls, meal) then 1 else 0) + ClaimsWithMeal(cs[1..], ls, meal)
  }

  lemma MealTypesOfUnique(c: Claim, ls: seq<Listing>, meal: string)
    requires UniqueKeys(ls, ListingKey)
    ensures Count(MealTypesOf(c, ls), meal) == if ClaimedAs(c, ls, meal) then 1 else 0
  {
    var r := MealTypesOf(c, ls);
    UniqueKeyCount(ls, ListingKey, c.foodId);
    if ClaimedAs(c, ls, meal) {
      var k :| 0 <= k < |ls| && ls[k].foodId == c.foodId && ls[k].mealType == meal;
      assert HasKey(ls, ListingKey, c.foodId) by {
        assert ListingKey(ls[k]) == c.foodId;
      }
      var m :| 0 <= m < |ls| && ls[m].foodId == c.foodId && r[0] == ls[m].mealType;
      assert m == k by {
        assert ListingKey(ls[m]) == ListingKey(ls[k]);
      }
      assert r == [meal];
    } else {
      assert meal !in r by {
        forall i | 0 <= i < |r| ensures r[i] != meal {
          var m :| 0 <= m < |ls| && ls[m].foodId == c.foodId && r[i] == ls[m].mealType;
        }
      }
    }
  }

  /** With unique `Food_ID`s, report 13 counts for each meal type exactly the claims for a
      listing of that meal type; a meal type no claim reaches has no row. */
  lemma ClaimsByMealTypeCounts(cs: seq<Claim>, ls: seq<Listing>, meal: string)
    requires UniqueKeys(ls, ListingKey)
    ensures TotalOf(ClaimsByMealType(cs, ls), meal) == ClaimsWithMeal(cs, ls, meal)
    ensures meal in KeySet(ClaimsByMealType(cs, ls)) <==> ClaimsWithMeal(cs, ls, meal) > 0
  {
    CountTotalOf(ClaimsByMealType(cs, ls), ClaimMealTypes(cs, ls), meal);
    MealTypesCount(cs, ls, meal);
  }

  lemma {:induction false} MealTypesCount(cs: seq<Claim>, ls: seq<Listing>, meal: string)
    requires UniqueKeys(ls, ListingKey)
    ensures Count(ClaimMealTypes(cs, ls), meal) == ClaimsWithMeal(cs, ls, meal)
    decreases |cs|
  {
    if |cs| > 0 {
      CountConcat(MealTypesOf(cs[0], ls), ClaimMealTypes(cs[1..], ls), meal);
      MealTypesOfUnique(cs[0], ls, meal);
      MealTypesCount(cs[1..], ls, meal);
    }
  }
}
