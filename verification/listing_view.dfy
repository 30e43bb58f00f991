/** The "View & Filter Listings" panel (app.py lines 105-121): the query starts from
    `SELECT * FROM food_listings WHERE 1=1` and gains one `AND column = :value` conjunct for each
    filter field that is not empty. */
module ListingView {
  import opened Seqs
  import opened Schema

  /** One equality conjunct of the panel's query. */
  datatype Condition = LocationIs(city: string) | MealTypeIs(meal: string) | FoodTypeIs(foodType: string)

  predicate Holds(c: Condition, l: Listing) {
    match c
    case LocationIs(v) => l.location == v
    case MealTypeIs(v) => l.mealType == v
    case FoodTypeIs(v) => l.foodType == v
  }

  /** The conjuncts the panel appends, in order: one per non-empty field. */
  function Conditions(city: string, meal: string, foodType: string): (cs: seq<Condition>)
    ensures |cs| <= 3
    ensures LocationIs(city) in cs <==> city != ""
    ensures MealTypeIs(meal) in cs <==> meal != ""
    ensures FoodTypeIs(foodType) in cs <==> foodType != ""
    ensures forall i :: 0 <= i < |cs| ==> cs[i] in [LocationIs(city), MealTypeIs(meal), FoodTypeIs(foodType)]
  {
    (if city != "" then [LocationIs(city)] else [])
    + (if meal != "" then [MealTypeIs(meal)] else [])
    + (if foodType != "" then [FoodTypeIs(foodType)] else [])
  }

  /** `1=1 AND c1 AND c2 …`: every conjunct holds (trivially so when there is none). */
  predicate AllHold(cs: seq<Condition>, l: Listing) {
    forall i :: 0 <= i < |cs| ==> Holds(cs[i], l)
  }

  /** Number of rows satisfying every conjunct. */
  function MatchCount(rows: seq<Listing>, cs: seq<Condition>): nat
    decreases |rows|
  {
    if |rows| == 0 then 0 else (if AllHold(cs, rows[0]) then 1 else 0) + MatchCount(rows[1..], cs)
  }

  /** The rows the query returns, in storage order. */
  function Where(rows: seq<Listing>, cs: seq<Condition>): (r: seq<Listing>)
    ensures IsSubseq(r, rows)
    ensures |r| == MatchCount(rows, cs)
    ensures forall i :: 0 <= i < |r| ==> AllHold(cs, r[i])
    ensures forall i :: 0 <= i < |rows| && AllHold(cs, rows[i]) ==> rows[i] in r
    ensures forall l :: multiset(r)[l] == if AllHold(cs, l) then multiset(rows)[l] else 0
    decreases |rows|
  {
    if |rows| == 0 then []
    else
      var rest := Where(rows[1..], cs);
      assert rows == [rows[0]] + rows[1..];
      assert forall i :: 1 <= i < |rows| && AllHold(cs, rows[i]) ==> rows[i] in rest by {
        forall i | 1 <= i < |rows| && AllHold(cs, rows[i]) ensures rows[i] in rest {
          assert rows[1..][i - 1] == rows[i];
        }
      }
      if AllHold(cs, rows[0]) then [rows[0]] + rest else rest
  }

  /** A listing passes the panel's filters: it equals every field that is not empty. */
  predicate Matches(l: Listing, city: string, meal: string, foodType: string) {
    && (city == "" || l.location == city)
    && (meal == "" || l.mealType == meal)
    && (foodType == "" || l.foodType == foodType)
  }

  lemma ConditionsMeanMatches(l: Listing, city: string, meal: string, foodType: string)
    ensures AllHold(Conditions(city, meal, foodType), l) <==> Matches(l, city, meal, foodType)
  {
    var cs := Conditions(city, meal, foodType);
    if AllHold(cs, l) {
      if city != "" {
        var i :| 0 <= i < |cs| && cs[i] == LocationIs(city);
      }
      if meal != "" {
        var i :| 0 <= i < |cs| && cs[i] == MealTypeIs(meal);
      }
      if foodType != "" {
        var i :| 0 <= i < |cs| && cs[i] == FoodTypeIs(foodType);
      }
    }
  }

  /** With no conjunct every row is returned, in order. */
  lemma {:induction false} WhereNothing(rows: seq<Listing>)
    ensures Where(rows, []) == rows
    decreases |rows|
  {
    if |rows| > 0 {
      WhereNothing(rows[1..]);
    }
  }

  /** A stricter query returns a subsequence of a looser one. */
  lemma {:induction false} WhereNarrowing(rows: seq<Listing>, strict: seq<Condition>, loose: seq<Condition>)
    requires forall l :: AllHold(strict, l) ==> AllHold(loose, l)
    ensures IsSubseq(Where(rows, strict), Where(rows, loose))
    decreases |rows|
  {
    if |rows| > 0 {
      WhereNarrowing(rows[1..], strict, loose);
      var a := Where(rows[1..], strict);
      var b := Where(rows[1..], loose);
      if AllHold(strict, rows[0]) {
        assert ([rows[0]] + a)[1..] == a && ([rows[0]] + b)[1..] == b;
      } else if AllHold(loose, rows[0]) {
        assert ([rows[0]] + b)[1..] == b;
      }
    }
  }

  /** The panel: the listings matching every non-empty filter field, in storage order. */
  function ViewListings(rows: seq<Listing>, city: string, meal: string, foodType: string): (r: seq<Listing>)
    ensures IsSubseq(r, rows)
    ensures forall i :: 0 <= i < |r| ==> Matches(r[i], city, meal, foodType)
    ensures forall i :: 0 <= i < |rows| && Matches(rows[i], city, meal, foodType) ==> rows[i] in r
    ensures |r| == MatchCount(rows, Conditions(city, meal, foodType))
    ensures forall l :: multiset(r)[l] == if Matches(l, city, meal, foodType) then multiset(rows)[l] else 0
    ensures city == "" && meal == "" && foodType == "" ==> r == rows
  {
    var cs := Conditions(city, meal, foodType);
    var r := Where(rows, cs);
    assert forall i :: 0 <= i < |r| ==> Matches(r[i], city, meal, foodType) by {
      forall i | 0 <= i < |r| ensures Matches(r[i], city, meal, foodType) {
        ConditionsMeanMatches(r[i], city, meal, foodType);
      }
    }
    assert forall i :: 0 <= i < |rows| && Matches(rows[i], city, meal, foodType) ==> rows[i] in r by {
      forall i | 0 <= i < |rows| && Matches(rows[i], city, meal, foodType) ensures rows[i] in r {
        ConditionsMeanMatches(rows[i], city, meal, foodType);
      }
    }
    assert forall l :: multiset(r)[l] == if Matches(l, city, meal, foodType) then multiset(rows)[l] else 0 by {
      forall l ensures multiset(r)[l] == if Matches(l, city, meal, foodType) then multiset(rows)[l] else 0 {
        ConditionsMeanMatches(l, city, meal, foodType);
      }
    }
    if city == "" && meal == "" && foodType == "" then
      WhereNothing(rows);
      r
    else
      r
  }

  /** Filling in one more filter field never adds rows: the result is a subsequence of the
      result with that field left empty. */
  lemma AddingFilterNeverGrows(rows: seq<Listing>, city: string, meal: string, foodType: string)
    ensures IsSubseq(ViewListings(rows, city, meal, foodType), ViewListings(rows, "", meal, foodType))
    ensures IsSubseq(ViewListings(rows, city, meal, foodType), ViewListings(rows, city, "", foodType))
    ensures IsSubseq(ViewListings(rows, city, meal, foodType), ViewListings(rows, city, meal, ""))
  {
    var strict := Conditions(city, meal, foodType);
    forall l | AllHold(strict, l) ensures AllHold(Conditions("", meal, foodType), l)
                                  && AllHold(Conditions(city, "", foodType), l)
                                  && AllHold(Conditions(city, meal, ""), l) {
      ConditionsMeanMatches(l, city, meal, foodType);
      ConditionsMeanMatches(l, "", meal, foodType);
      ConditionsMeanMatches(l, city, "", foodType);
      ConditionsMeanMatches(l, city, meal, "");
    }
    WhereNarrowing(rows, strict, Conditions("", meal, foodType));
    WhereNarrowing(rows, strict, Conditions(city, "", foodType));
    WhereNarrowing(rows, strict, Conditions(city, meal, ""));
  }
}
