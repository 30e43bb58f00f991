/** The reports of the Reports tab that read the listing rows themselves (app.py lines 312-318
    and 409-427): the non-expired quantity, the near-expiry items and the listings without a
    completed claim. `DATE('now')` is the parameter `today`. */
module ListingReports {
  import opened Seqs
  import opened Sorting
  import opened Schema

  // ---- Report 6: SUM(Quantity) WHERE Expiry_Date >= today ----

  /** The summed quantity of the listings expiring today or later. `SUM` over no row is NULL,
      which the metric shows as 0. */
  function NonExpiredQuantity(ls: seq<Listing>, today: Day): (q: int)
    ensures (forall i :: 0 <= i < |ls| ==> ls[i].expiry < today) ==> q == 0
    ensures (forall i :: 0 <= i < |ls| ==> ls[i].quantity >= 0) ==> q >= 0
    decreases |ls|
  {
    if |ls| == 0 then 0
    else
      assert forall i :: 0 <= i < |ls[1..]| ==> ls[1..][i] == ls[i + 1];
      (if ls[0].expiry >= today then ls[0].quantity else 0) + NonExpiredQuantity(ls[1..], today)
  }

  /** The summed quantity of the listings that expired before `today`. */
  function ExpiredQuantity(ls: seq<Listing>, today: Day): int
    decreases |ls|
  {
    if |ls| == 0 then 0 else (if ls[0].expiry < today then ls[0].quantity else 0) + ExpiredQuantity(ls[1..], today)
  }

  function TotalQuantity(ls: seq<Listing>): int
    decreases |ls|
  {
    if |ls| == 0 then 0 else ls[0].quantity + TotalQuantity(ls[1..])
  }

  /** Every listing is either counted by report 6 or expired, never both. */
  lemma {:induction false} QuantitySplits(ls: seq<Listing>, today: Day)
    ensures NonExpiredQuantity(ls, today) + ExpiredQuantity(ls, today) == TotalQuantity(ls)
    decreases |ls|
  {
    if |ls| > 0 {
      QuantitySplits(ls[1..], today);
    }
  }

  /** As days pass the non-expired quantity can only fall (quantities being non-negative). */
  lemma {:induction false} NonExpiredShrinksOverTime(ls: seq<Listing>, earlier: Day, later: Day)
    requires earlier <= later
    requires forall i :: 0 <= i < |ls| ==> ls[i].quantity >= 0
    ensures NonExpiredQuantity(ls, later) <= NonExpiredQuantity(ls, earlier)
    decreases |ls|
  {
    if |ls| > 0 {
      assert ls[0].quantity >= 0;
      assert forall i :: 0 <= i < |ls[1..]| ==> ls[1..][i].quantity >= 0 by {
        forall i | 0 <= i < |ls[1..]| ensures ls[1..][i].quantity >= 0 {
          assert ls[1..][i] == ls[i + 1];
        }
      }
      NonExpiredShrinksOverTime(ls[1..], earlier, later);
    }
  }

  // ---- The listing columns shown by reports 15 and 16 ----

  /** One row of reports 15 and 16: `Food_ID, Food_Name, Quantity, Expiry_Date, Location`. */
  datatype ListingRow = ListingRow(foodId: int, foodName: string, quantity: int, expiry: Day, location: string)

  function RowOf(l: Listing): ListingRow {
    ListingRow(l.foodId, l.foodName, l.quantity, l.expiry, l.location)
  }

  /** `ORDER BY Expiry_Date` ascending. */
  function ExpiryRank(v: ListingRow): Rank { Rank(v.expiry, 0) }

  function RowFood(v: ListingRow): int { v.foodId }

  // ---- Report 15: Expiry_Date BETWEEN today AND today + days ----

  predicate InWindow(l: Listing, today: Day, days: int) {
    today <= l.expiry <= today + days
  }

  /** The listings inside the window, in storage order, each as often as it is stored. */
  function DueRows(ls: seq<Listing>, today: Day, days: int): (r: seq<Listing>)
    ensures forall x :: multiset(r)[x] == if InWindow(x, today, days) then multiset(ls)[x] else 0
    decreases |ls|
  {
    if |ls| == 0 then []
    else
      assert ls == [ls[0]] + ls[1..];
      var rest := DueRows(ls[1..], today, days);
      if InWindow(ls[0], today, days) then [ls[0]] + rest else rest
  }

  /** The rows `DueRows` keeps are exactly the stored rows inside the window. */
  lemma DueRowsMembers(ls: seq<Listing>, today: Day, days: int)
    ensures forall p :: 0 <= p < |DueRows(ls, today, days)| ==> InWindow(DueRows(ls, today, days)[p], today, days)
    ensures forall k :: 0 <= k < |ls| && InWindow(ls[k], today, days) ==> ls[k] in DueRows(ls, today, days)
  {
    var due := DueRows(ls, today, days);
    forall p | 0 <= p < |due| ensures InWindow(due[p], today, days) {
      assert due[p] in multiset(due);
    }
    forall k | 0 <= k < |ls| && InWindow(ls[k], today, days) ensures ls[k] in due {
      assert ls[k] in multiset(ls);
      assert ls[k] in multiset(due);
    }
  }

  /** Any expiry-ordered arrangement of the due rows shows exactly the listings in the window. */
  lemma DueRowsSorted(ls: seq<Listing>, today: Day, days: int, r: seq<ListingRow>)
    requires multiset(r) == multiset(Map(DueRows(ls, today, days), RowOf))
    requires SortedBy(r, ExpiryRank)
    ensures forall i :: 0 <= i < |r| ==> today <= r[i].expiry <= today + days
    ensures forall k :: 0 <= k < |ls| && InWindow(ls[k], today, days) ==> RowOf(ls[k]) in r
    ensures forall i, j :: 0 <= i < j < |r| ==> r[i].expiry <= r[j].expiry
  {
    var due := DueRows(ls, today, days);
    MapPermutationMembers(due, RowOf, r);
    DueRowsMembers(ls, today, days);
    forall i, j | 0 <= i < j < |r| ensures r[i].expiry <= r[j].expiry {
      assert RankLe(ExpiryRank(r[i]), ExpiryRank(r[j]));
    }
  }

  /** Report 15: the listings expiring between today and `days` days ahead, both ends included,
      earliest first. The form's number input keeps `days` between 1 and 30; the query itself
      accepts any value. */
  function NearExpiry(ls: seq<Listing>, today: Day, days: int): (r: seq<ListingRow>)
    ensures multiset(r) == multiset(Map(DueRows(ls, today, days), RowOf))
    ensures forall i :: 0 <= i < |r| ==> today <= r[i].expiry <= today + days
    ensures forall k :: 0 <= k < |ls| && InWindow(ls[k], today, days) ==> RowOf(ls[k]) in r
    ensures forall i, j :: 0 <= i < j < |r| ==> r[i].expiry <= r[j].expiry
  {
    var r := SortByRank(Map(DueRows(ls, today, days), RowOf), ExpiryRank);
    DueRowsSorted(ls, today, days, r);
    r
  }

  /** Two days ahead of `today`: a listing expiring tomorrow is shown, one expiring in three days
      is not. */
  lemma NearExpiryExample(ls: seq<Listing>, today: Day, tomorrow: nat, later: nat)
    requires tomorrow < |ls| && ls[tomorrow].expiry == today + 1
    requires later < |ls| && ls[later].expiry == today + 3
    ensures RowOf(ls[tomorrow]) in NearExpiry(ls, today, 2)
    ensures RowOf(ls[later]) !in NearExpiry(ls, today, 2)
  {
  }

  // ---- Report 16: food_listings LEFT JOIN completed claims WHERE c.Claim_ID IS NULL ----

  /** The listings no completed claim refers to, in storage order. The left join keeps a listing
      with no completed claim as one row with NULL claim columns, which the `IS NULL` test keeps;
      a listing with completed claims joins to non-NULL claim ids and is dropped. */
  function OpenRows(ls: seq<Listing>, cs: seq<Claim>): (r: seq<Listing>)
    ensures IsSubseq(r, ls)
    ensures |r| <= |ls|
    ensures forall x :: multiset(r)[x] == if HasCompletedClaim(cs, x.foodId) then 0 else multiset(ls)[x]
    decreases |ls|
  {
    if |ls| == 0 then []
    else
      assert ls == [ls[0]] + ls[1..];
      var rest := OpenRows(ls[1..], cs);
      if HasCompletedClaim(cs, ls[0].foodId) then rest else [ls[0]] + rest
  }

  /** The rows `OpenRows` keeps are exactly the stored rows without a completed claim. */
  lemma OpenRowsMembers(ls: seq<Listing>, cs: seq<Claim>)
    ensures forall p :: 0 <= p < |OpenRows(ls, cs)| ==> !HasCompletedClaim(cs, OpenRows(ls, cs)[p].foodId)
    ensures forall k :: 0 <= k < |ls| && !HasCompletedClaim(cs, ls[k].foodId) ==> ls[k] in OpenRows(ls, cs)
  {
    var open := OpenRows(ls, cs);
    forall p | 0 <= p < |open| ensures !HasCompletedClaim(cs, open[p].foodId) {
      assert open[p] in multiset(open);
    }
    forall k | 0 <= k < |ls| && !HasCompletedClaim(cs, ls[k].foodId) ensures ls[k] in open {
      assert ls[k] in multiset(ls);
      assert ls[k] in multiset(open);
    }
  }

  /** Any expiry-ordered arrangement of the open rows shows exactly the listings without a
      completed claim. */
  lemma OpenRowsSorted(ls: seq<Listing>, cs: seq<Claim>, r: seq<ListingRow>)
    requires multiset(r) == multiset(Map(OpenRows(ls, cs), RowOf))
    requires SortedBy(r, ExpiryRank)
    ensures |r| <= |ls|
    ensures forall i :: 0 <= i < |r| ==> !HasCompletedClaim(cs, r[i].foodId)
    ensures forall k :: 0 <= k < |ls| && !HasCompletedClaim(cs, ls[k].foodId) ==> RowOf(ls[k]) in r
    ensures forall i, j :: 0 <= i < j < |r| ==> r[i].expiry <= r[j].expiry
  {
    var open := OpenRows(ls, cs);
    MapPermutationMembers(open, RowOf, r);
    OpenRowsMembers(ls, cs);
    assert |r| == |Map(open, RowOf)| by {
      assert |multiset(r)| == |multiset(Map(open, RowOf))|;
    }
    forall i, j | 0 <= i < j < |r| ensures r[i].expiry <= r[j].expiry {
      assert RankLe(ExpiryRank(r[i]), ExpiryRank(r[j]));
    }
  }

  /** Report 16: the listings without a completed claim, earliest expiry first. */
  function NotCompleted(ls: seq<Listing>, cs: seq<Claim>): (r: seq<ListingRow>)
    ensures multiset(r) == multiset(Map(OpenRows(ls, cs), RowOf))
    ensures |r| <= |ls|
    ensures forall i :: 0 <= i < |r| ==> !HasCompletedClaim(cs, r[i].foodId)
    ensures forall k :: 0 <= k < |ls| && !HasCompletedClaim(cs, ls[k].foodId) ==> RowOf(ls[k]) in r
    ensures forall i, j :: 0 <= i < j < |r| ==> r[i].expiry <= r[j].expiry
  {
    var r := SortByRank(Map(OpenRows(ls, cs), RowOf), ExpiryRank);
    OpenRowsSorted(ls, cs, r);
    r
  }

  /** With unique `Food_ID`s, report 16 shows each listing at most once. */
  lemma NotCompletedOncePerListing(ls: seq<Listing>, cs: seq<Claim>)
    requires UniqueKeys(ls, ListingKey)
    ensures UniqueKeys(NotCompleted(ls, cs), RowFood)
  {
    var open := OpenRows(ls, cs);
    SubseqKeepsUnique(open, ls, ListingKey);
    var shown := Map(open, RowOf);
    assert UniqueKeys(shown, RowFood) by {
      forall i, j | 0 <= i < j < |shown| ensures RowFood(shown[i]) != RowFood(shown[j]) {
        assert ListingKey(open[i]) != ListingKey(open[j]);
      }
    }
    UniqueKeysPermutation(shown, NotCompleted(ls, cs), RowFood);
  }

  /** Once a completed claim on a listing is recorded, report 16 no longer shows that listing. */
  lemma CompletedClaimHidesListing(ls: seq<Listing>, cs: seq<Claim>, c: Claim)
    requires c.status == Completed
    ensures forall i :: 0 <= i < |NotCompleted(ls, cs + [c])| ==> NotCompleted(ls, cs + [c])[i].foodId != c.foodId
  {
    assert CompletedFor((cs + [c])[|cs|], c.foodId);
  }

  /** One listing, "Bread" with `Food_ID` 1, whose only claim is completed: report 16 is empty. */
  lemma NotCompletedExample(expiry: Day)
    ensures NotCompleted([Listing(1, "Bread", 10, expiry, 1, "Restaurant", "NYC", "Vegetarian", "Lunch")],
                         [Claim(1, 1, 1, Completed, "2099-01-01 10:00:00")])
            == []
  {
    var ls := [Listing(1, "Bread", 10, expiry, 1, "Restaurant", "NYC", "Vegetarian", "Lunch")];
    var cs := [Claim(1, 1, 1, Completed, "2099-01-01 10:00:00")];
    assert CompletedFor(cs[0], 1);
    var open := OpenRows(ls, cs);
    assert multiset(open) == multiset{} by {
      assert forall x :: multiset(open)[x] == 0 by {
        forall x ensures multiset(open)[x] == 0 {
          if x != ls[0] {
            assert multiset(ls)[x] == 0;
          }
        }
      }
    }
    assert |Map(open, RowOf)| == 0;
  }
}
