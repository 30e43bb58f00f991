/** The reports of the Reports tab that group the rows of a join by a `(id, Name)` pair
    (app.py lines 302-310, 342-362 and 399-407): top receivers by claims, claims per food item,
    top providers by completed claims and total quantity per provider.

    A join yields one row per matching combination of rows; only the group key and the weight
    of each joined row reach the aggregate, so each report lists its joined rows as keys (for
    `COUNT(*)`) or weighted entries (for `COUNT(column)` and `SUM`), row by row of the outer table. */
module JoinReports {
  import opened Seqs
  import opened Grouping
  import opened Schema

  /** The `(id, Name)` pairs the reports group by. */
  function ReceiverIdentity(r: Receiver): (int, string) { (r.receiverId, r.name) }
  function ProviderIdentity(p: Provider): (int, string) { (p.providerId, p.name) }
  function ListingIdentity(l: Listing): (int, string) { (l.foodId, l.foodName) }

  /** With unique receiver ids each receiver's `(Receiver_ID, Name)` pair occurs once. */
  lemma ReceiverIdentityOnce(rs: seq<Receiver>, k: nat)
    requires UniqueKeys(rs, ReceiverKey)
    requires k < |rs|
    ensures Count(Map(rs, ReceiverIdentity), ReceiverIdentity(rs[k])) == 1
  {
    var m := Map(rs, ReceiverIdentity);
    assert NoDup(m) by {
      forall i, j | 0 <= i < j < |m| ensures m[i] != m[j] {
        assert ReceiverKey(rs[i]) != ReceiverKey(rs[j]);
      }
    }
    assert m[k] == ReceiverIdentity(rs[k]);
    CountNoDup(m, ReceiverIdentity(rs[k]));
  }

  lemma ProviderIdentityOnce(ps: seq<Provider>, k: nat)
    requires UniqueKeys(ps, ProviderKey)
    requires k < |ps|
    ensures Count(Map(ps, ProviderIdentity), ProviderIdentity(ps[k])) == 1
  {
    var m := Map(ps, ProviderIdentity);
    assert NoDup(m) by {
      forall i, j | 0 <= i < j < |m| ensures m[i] != m[j] {
        assert ProviderKey(ps[i]) != ProviderKey(ps[j]);
      }
    }
    assert m[k] == ProviderIdentity(ps[k]);
    CountNoDup(m, ProviderIdentity(ps[k]));
  }

  lemma ListingIdentityOnce(ls: seq<Listing>, k: nat)
    requires UniqueKeys(ls, ListingKey)
    requires k < |ls|
    ensures Count(Map(ls, ListingIdentity), ListingIdentity(ls[k])) == 1
  {
    var m := Map(ls, ListingIdentity);
    assert NoDup(m) by {
      forall i, j | 0 <= i < j < |m| ensures m[i] != m[j] {
        assert ListingKey(ls[i]) != ListingKey(ls[j]);
      }
    }
    assert m[k] == ListingIdentity(ls[k]);
    CountNoDup(m, ListingIdentity(ls[k]));
  }

  // ---- Report 5: receivers JOIN claims, COUNT(*) per (Receiver_ID, Name) ----

  /** The group keys of `receivers JOIN claims`: each receiver's pair once per claim it made. */
  function ReceiverClaimKeys(rs: seq<Receiver>, cs: seq<Claim>): seq<(int, string)>
    decreases |rs|
  {
    if |rs| == 0 then []
    else Repeat(ReceiverIdentity(rs[0]), KeyCount(cs, ClaimReceiver, rs[0].receiverId))
         + ReceiverClaimKeys(rs[1..], cs)
  }

  /** Report 5: claims per receiver, most claims first. */
  function TopReceivers(rs: seq<Receiver>, cs: seq<Claim>): (r: seq<Group<(int, string)>>)
    ensures IsCountOf(r, ReceiverClaimKeys(rs, cs))
  {
    GroupCount(ReceiverClaimKeys(rs, cs))
  }

  /** A `(Receiver_ID, Name)` group counts each receiver row carrying that pair once for every
      claim with that `Receiver_ID`. */
  lemma {:induction false} ReceiverClaimKeysCount(rs: seq<Receiver>, cs: seq<Claim>, who: (int, string))
    ensures Count(ReceiverClaimKeys(rs, cs), who)
            == Count(Map(rs, ReceiverIdentity), who) * KeyCount(cs, ClaimReceiver, who.0)
    decreases |rs|
  {
    if |rs| > 0 {
      var n := KeyCount(cs, ClaimReceiver, rs[0].receiverId);
      CountConcat(Repeat(ReceiverIdentity(rs[0]), n), ReceiverClaimKeys(rs[1..], cs), who);
      CountRepeat(ReceiverIdentity(rs[0]), n, who);
      ReceiverClaimKeysCount(rs[1..], cs, who);
      MapTail(rs, ReceiverIdentity);
      var a := if ReceiverIdentity(rs[0]) == who then 1 else 0;
      var b := Count(Map(rs[1..], ReceiverIdentity), who);
      var m := KeyCount(cs, ClaimReceiver, who.0);
      assert Count(Map(rs, ReceiverIdentity), who) == a + b;
      Distribute(a, b, m);
    }
  }

  /** With unique receiver ids, report 5 gives each receiver the number of claims it made, and
      lists it exactly when it made at least one. */
  lemma TopReceiversCounts(rs: seq<Receiver>, cs: seq<Claim>, k: nat)
    requires UniqueKeys(rs, ReceiverKey)
    requires k < |rs|
    ensures TotalOf(TopReceivers(rs, cs), ReceiverIdentity(rs[k])) == KeyCount(cs, ClaimReceiver, rs[k].receiverId)
    ensures ReceiverIdentity(rs[k]) in KeySet(TopReceivers(rs, cs)) <==> HasKey(cs, ClaimReceiver, rs[k].receiverId)
  {
    var who := ReceiverIdentity(rs[k]);
    CountTotalOf(TopReceivers(rs, cs), ReceiverClaimKeys(rs, cs), who);
    ReceiverClaimKeysCount(rs, cs, who);
    ReceiverIdentityOnce(rs, k);
  }

  // ---- Report 9: food_listings LEFT JOIN claims, COUNT(c.Claim_ID) per (Food_ID, Food_Name) ----

  /** The rows the left join yields for one listing, as weighted entries: one row of weight one
      per claim on it, or, when there is none, the single row with NULL claim columns, which
      `COUNT(c.Claim_ID)` does not count. */
  function ListingClaimEntries(l: Listing, cs: seq<Claim>): seq<Entry<(int, string)>> {
    var n := KeyCount(cs, ClaimFood, l.foodId);
    if n == 0 then [Entry(ListingIdentity(l), 0)] else Repeat(Entry(ListingIdentity(l), 1), n)
  }

  lemma ListingClaimEntriesShape(l: Listing, cs: seq<Claim>, who: (int, string))
    ensures EntryKeys(ListingClaimEntries(l, cs)) == {ListingIdentity(l)}
    ensures WeightOf(ListingClaimEntries(l, cs), who)
            == if ListingIdentity(l) == who then KeyCount(cs, ClaimFood, l.foodId) else 0
  {
    var n := KeyCount(cs, ClaimFood, l.foodId);
    if n == 0 {
      var es := [Entry(ListingIdentity(l), 0)];
      assert es[1..] == [];
      assert EntryKeys(es) == {ListingIdentity(l)} by {
        assert es[0].key == ListingIdentity(l);
      }
    } else {
      WeightOfRepeat(Entry(ListingIdentity(l), 1), n, who);
    }
  }

  function ClaimEntries(ls: seq<Listing>, cs: seq<Claim>): seq<Entry<(int, string)>>
    decreases |ls|
  {
    if |ls| == 0 then [] else ListingClaimEntries(ls[0], cs) + ClaimEntries(ls[1..], cs)
  }

  function FoodIdOf(k: (int, string)): int { k.0 }

  /** Report 9: claims per food item, most claimed first, ties by ascending `Food_ID`. */
  function ClaimsPerListing(ls: seq<Listing>, cs: seq<Claim>): (r: seq<Group<(int, string)>>)
    ensures IsSumOf(r, ClaimEntries(ls, cs))
    ensures forall i, j :: 0 <= i < j < |r| ==>
              r[i].total > r[j].total || (r[i].total == r[j].total && r[i].key.0 <= r[j].key.0)
  {
    GroupSum(ClaimEntries(ls, cs), FoodIdOf)
  }

  /** Every listing's pair has a group, and no other pair has one. */
  lemma {:induction false} ClaimEntriesKeys(ls: seq<Listing>, cs: seq<Claim>)
    ensures EntryKeys(ClaimEntries(ls, cs)) == Elements(Map(ls, ListingIdentity))
    decreases |ls|
  {
    if |ls| > 0 {
      var head := ListingClaimEntries(ls[0], cs);
      EntryKeysConcat(head, ClaimEntries(ls[1..], cs));
      ListingClaimEntriesShape(ls[0], cs, ListingIdentity(ls[0]));
      ClaimEntriesKeys(ls[1..], cs);
      var m := Map(ls, ListingIdentity);
      MapTail(ls, ListingIdentity);
      forall x | x in Elements(m) ensures x in {m[0]} + Elements(m[1..]) {
        var i :| 0 <= i < |m| && m[i] == x;
        if i > 0 {
          assert m[1..][i - 1] == x;
        }
      }
      forall x | x in Elements(m[1..]) ensures x in Elements(m) {
        var i :| 0 <= i < |m[1..]| && m[1..][i] == x;
        assert m[i + 1] == x;
      }
      assert Elements(m) == {m[0]} + Elements(m[1..]);
    }
  }

  /** The group of a `(Food_ID, Food_Name)` pair counts, for each listing row carrying it, the
      claims with that `Food_ID`. */
  lemma {:induction false} ClaimEntriesWeight(ls: seq<Listing>, cs: seq<Claim>, who: (int, string))
    ensures WeightOf(ClaimEntries(ls, cs), who)
            == Count(Map(ls, ListingIdentity), who) * KeyCount(cs, ClaimFood, who.0)
    decreases |ls|
  {
    if |ls| > 0 {
      var head := ListingClaimEntries(ls[0], cs);
      var rest := ClaimEntries(ls[1..], cs);
      assert ClaimEntries(ls, cs) == head + rest;
      WeightOfConcat(head, rest, who);
      ListingClaimEntriesShape(ls[0], cs, who);
      ClaimEntriesWeight(ls[1..], cs, who);
      MapTail(ls, ListingIdentity);
      var a := if ListingIdentity(ls[0]) == who then 1 else 0;
      var b := Count(Map(ls[1..], ListingIdentity), who);
      var m := KeyCount(cs, ClaimFood, who.0);
      assert WeightOf(head, who) == a * m;
      assert Count(Map(ls, ListingIdentity), who) == a + b;
      Distribute(a, b, m);
    }
  }

  /** With unique `Food_ID`s every listing appears in report 9, once, with the number of claims
      on it, which is 0 for an unclaimed listing. */
  lemma ClaimsPerListingCounts(ls: seq<Listing>, cs: seq<Claim>, k: nat)
    requires UniqueKeys(ls, ListingKey)
    requires k < |ls|
    ensures ListingIdentity(ls[k]) in KeySet(ClaimsPerListing(ls, cs))
    ensures TotalOf(ClaimsPerListing(ls, cs), ListingIdentity(ls[k])) == KeyCount(cs, ClaimFood, ls[k].foodId)
  {
    var who := ListingIdentity(ls[k]);
    ClaimEntriesKeys(ls, cs);
    assert Map(ls, ListingIdentity)[k] == who;
    SumTotalOf(ClaimsPerListing(ls, cs), ClaimEntries(ls, cs), who);
    ClaimEntriesWeight(ls, cs, who);
    ListingIdentityOnce(ls, k);
  }

  /** One listing, "Bread" with `Food_ID` 1, and one claim on it: report 9 is the single row
      (1, "Bread", 1). */
  lemma ClaimsPerListingExample(expiry: Day)
    ensures ClaimsPerListing([Listing(1, "Bread", 10, expiry, 1, "Restaurant", "NYC", "Vegetarian", "Lunch")],
                             [Claim(1, 1, 1, Completed, "2099-01-01 10:00:00")])
            == [Group((1, "Bread"), 1)]
  {
    var ls := [Listing(1, "Bread", 10, expiry, 1, "Restaurant", "NYC", "Vegetarian", "Lunch")];
    var cs := [Claim(1, 1, 1, Completed, "2099-01-01 10:00:00")];
    var r := ClaimsPerListing(ls, cs);
    var who := (1, "Bread");
    ClaimEntriesKeys(ls, cs);
    assert Map(ls, ListingIdentity) == [who];
    assert Elements([who]) == {who};
    assert forall i :: 0 <= i < |r| ==> r[i].key == who by {
      forall i | 0 <= i < |r| ensures r[i].key == who {
        assert r[i].key in KeySet(r);
      }
    }
    assert |r| <= 1;
    assert who in KeySet(r);
    ClaimEntriesWeight(ls, cs, who);
    assert KeyCount(cs, ClaimFood, 1) == 1;
    assert Count([who], who) == 1;
    assert r[0] == Group(who, 1);
  }

  // ---- Report 10: providers JOIN food_listings JOIN claims, completed claims per provider ----

  /** The rows the double join yields for one provider, as group keys: its pair once per
      completed claim on each of its listings. */
  function ProviderCompletedKeys(p: Provider, ls: seq<Listing>, cs: seq<Claim>): seq<(int, string)>
    decreases |ls|
  {
    if |ls| == 0 then []
    else (if ls[0].providerId == p.providerId then Repeat(ProviderIdentity(p), CompletedCount(cs, ls[0].foodId)) else [])
         + ProviderCompletedKeys(p, ls[1..], cs)
  }

  /** The number of completed claims on the listings of provider `providerId`. */
  function CompletedByProvider(ls: seq<Listing>, cs: seq<Claim>, providerId: int): nat
    decreases |ls|
  {
    if |ls| == 0 then 0
    else (if ls[0].providerId == providerId then CompletedCount(cs, ls[0].foodId) else 0)
         + CompletedByProvider(ls[1..], cs, providerId)
  }

  lemma {:induction false} ProviderCompletedKeysCount(p: Provider, ls: seq<Listing>, cs: seq<Claim>, who: (int, string))
    ensures Count(ProviderCompletedKeys(p, ls, cs), who)
            == if ProviderIdentity(p) == who then CompletedByProvider(ls, cs, p.providerId) else 0
    decreases |ls|
  {
    if |ls| > 0 {
      var head := if ls[0].providerId == p.providerId then Repeat(ProviderIdentity(p), CompletedCount(cs, ls[0].foodId)) else [];
      CountConcat(head, ProviderCompletedKeys(p, ls[1..], cs), who);
      CountRepeat(ProviderIdentity(p), CompletedCount(cs, ls[0].foodId), who);
      ProviderCompletedKeysCount(p, ls[1..], cs, who);
    }
  }

  function CompletedClaimKeys(ps: seq<Provider>, ls: seq<Listing>, cs: seq<Claim>): seq<(int, string)>
    decreases |ps|
  {
    if |ps| == 0 then [] else ProviderCompletedKeys(ps[0], ls, cs) + CompletedClaimKeys(ps[1..], ls, cs)
  }

  /** Report 10: completed claims per provider, most first. */
  function TopProvidersByCompleted(ps: seq<Provider>, ls: seq<Listing>, cs: seq<Claim>): (r: seq<Group<(int, string)>>)
    ensures IsCountOf(r, CompletedClaimKeys(ps, ls, cs))
  {
    GroupCount(CompletedClaimKeys(ps, ls, cs))
  }

  lemma {:induction false} CompletedClaimKeysCount(ps: seq<Provider>, ls: seq<Listing>, cs: seq<Claim>, who: (int, string))
    ensures Count(CompletedClaimKeys(ps, ls, cs), who)
            == Count(Map(ps, ProviderIdentity), who) * CompletedByProvider(ls, cs, who.0)
    decreases |ps|
  {
    if |ps| > 0 {
      CountConcat(ProviderCompletedKeys(ps[0], ls, cs), CompletedClaimKeys(ps[1..], ls, cs), who);
      ProviderCompletedKeysCount(ps[0], ls, cs, who);
      CompletedClaimKeysCount(ps[1..], ls, cs, who);
      MapTail(ps, ProviderIdentity);
      var a := if ProviderIdentity(ps[0]) == who then 1 else 0;
      var b := Count(Map(ps[1..], ProviderIdentity), who);
      var m := CompletedByProvider(ls, cs, who.0);
      assert Count(Map(ps, ProviderIdentity), who) == a + b;
      Distribute(a, b, m);
    }
  }

  /** With unique provider ids, report 10 gives each provider the number of completed claims on
      its listings, and lists it exactly when there is at least one. */
  lemma TopProvidersCounts(ps: seq<Provider>, ls: seq<Listing>, cs: seq<Claim>, k: nat)
    requires UniqueKeys(ps, ProviderKey)
    requires k < |ps|
    ensures TotalOf(TopProvidersByCompleted(ps, ls, cs), ProviderIdentity(ps[k]))
            == CompletedByProvider(ls, cs, ps[k].providerId)
    ensures ProviderIdentity(ps[k]) in KeySet(TopProvidersByCompleted(ps, ls, cs))
            <==> CompletedByProvider(ls, cs, ps[k].providerId) > 0
  {
    var who := ProviderIdentity(ps[k]);
    CountTotalOf(TopProvidersByCompleted(ps, ls, cs), CompletedClaimKeys(ps, ls, cs), who);
    CompletedClaimKeysCount(ps, ls, cs, who);
    ProviderIdentityOnce(ps, k);
  }

  // ---- Report 14: providers JOIN food_listings, SUM(Quantity) per (Provider_ID, Name) ----

  /** The rows the join yields for one provider: its pair, weighted by the quantity, once per
      listing of that provider. */
  function ProviderQuantityEntries(p: Provider, ls: seq<Listing>): seq<Entry<(int, string)>>
    decreases |ls|
  {
    if |ls| == 0 then []
    else (if ls[0].providerId == p.providerId then [Entry(ProviderIdentity(p), ls[0].quantity)] else [])
         + ProviderQuantityEntries(p, ls[1..])
  }

  /** The summed quantity of the listings of provider `providerId`. */
  function QuantityOf(ls: seq<Listing>, providerId: int): int
    decreases |ls|
  {
    if |ls| == 0 then 0
    else (if ls[0].providerId == providerId then ls[0].quantity else 0) + QuantityOf(ls[1..], providerId)
  }

  lemma {:induction false} ProviderQuantityEntriesShape(p: Provider, ls: seq<Listing>, who: (int, string))
    ensures WeightOf(ProviderQuantityEntries(p, ls), who)
            == if ProviderIdentity(p) == who then QuantityOf(ls, p.providerId) else 0
    ensures EntryKeys(ProviderQuantityEntries(p, ls))
            == if HasKey(ls, ListingProvider, p.providerId) then {ProviderIdentity(p)} else {}
    decreases |ls|
  {
    if |ls| > 0 {
      var head := if ls[0].providerId == p.providerId then [Entry(ProviderIdentity(p), ls[0].quantity)] else [];
      var rest := ProviderQuantityEntries(p, ls[1..]);
      WeightOfConcat(head, rest, who);
      EntryKeysConcat(head, rest);
      ProviderQuantityEntriesShape(p, ls[1..], who);
      assert head == [] || head[1..] == [];
      assert EntryKeys(head) == if ls[0].providerId == p.providerId then {ProviderIdentity(p)} else {} by {
        if ls[0].providerId == p.providerId {
          assert head[0].key == ProviderIdentity(p);
        }
      }
      assert HasKey(ls, ListingProvider, p.providerId)
             <==> ls[0].providerId == p.providerId || HasKey(ls[1..], ListingProvider, p.providerId) by {
        if HasKey(ls[1..], ListingProvider, p.providerId) {
          var i :| 0 <= i < |ls[1..]| && ListingProvider(ls[1..][i]) == p.providerId;
          assert ls[i + 1] == ls[1..][i];
        }
        if HasKey(ls, ListingProvider, p.providerId) && ls[0].providerId != p.providerId {
          var i :| 0 <= i < |ls| && ListingProvider(ls[i]) == p.providerId;
          assert ls[1..][i - 1] == ls[i];
        }
      }
    }
  }

  function QuantityEntries(ps: seq<Provider>, ls: seq<Listing>): seq<Entry<(int, string)>>
    decreases |ps|
  {
    if |ps| == 0 then [] else ProviderQuantityEntries(ps[0], ls) + QuantityEntries(ps[1..], ls)
  }

  /** Report 14: total quantity listed per provider, largest first. */
  function QuantityPerProvider(ps: seq<Provider>, ls: seq<Listing>): (r: seq<Group<(int, string)>>)
    ensures IsSumOf(r, QuantityEntries(ps, ls))
  {
    GroupSum(QuantityEntries(ps, ls), _ => 0)
  }

  lemma {:induction false} QuantityEntriesWeight(ps: seq<Provider>, ls: seq<Listing>, who: (int, string))
    ensures WeightOf(QuantityEntries(ps, ls), who) == Count(Map(ps, ProviderIdentity), who) * QuantityOf(ls, who.0)
    decreases |ps|
  {
    if |ps| > 0 {
      WeightOfConcat(ProviderQuantityEntries(ps[0], ls), QuantityEntries(ps[1..], ls), who);
      ProviderQuantityEntriesShape(ps[0], ls, who);
      QuantityEntriesWeight(ps[1..], ls, who);
      MapTail(ps, ProviderIdentity);
      var a := if ProviderIdentity(ps[0]) == who then 1 else 0;
      var b := Count(Map(ps[1..], ProviderIdentity), who);
      var m := QuantityOf(ls, who.0);
      assert Count(Map(ps, ProviderIdentity), who) == a + b;
      Distribute(a, b, m);
    }
  }

  /** A pair has a group exactly when some provider row carrying it has a listing. */
  lemma {:induction false} QuantityEntriesKeys(ps: seq<Provider>, ls: seq<Listing>, who: (int, string))
    ensures who in EntryKeys(QuantityEntries(ps, ls))
            <==> exists k :: 0 <= k < |ps| && ProviderIdentity(ps[k]) == who
                             && HasKey(ls, ListingProvider, ps[k].providerId)
    decreases |ps|
  {
    if |ps| > 0 {
      EntryKeysConcat(ProviderQuantityEntries(ps[0], ls), QuantityEntries(ps[1..], ls));
      ProviderQuantityEntriesShape(ps[0], ls, who);
      QuantityEntriesKeys(ps[1..], ls, who);
      if exists k :: 0 <= k < |ps[1..]| && ProviderIdentity(ps[1..][k]) == who
                     && HasKey(ls, ListingProvider, ps[1..][k].providerId) {
        var k :| 0 <= k < |ps[1..]| && ProviderIdentity(ps[1..][k]) == who
                 && HasKey(ls, ListingProvider, ps[1..][k].providerId);
        assert ps[k + 1] == ps[1..][k];
      }
      if exists k :: 0 <= k < |ps| && ProviderIdentity(ps[k]) == who && HasKey(ls, ListingProvider, ps[k].providerId) {
        var k :| 0 <= k < |ps| && ProviderIdentity(ps[k]) == who && HasKey(ls, ListingProvider, ps[k].providerId);
        if k > 0 {
          assert ps[1..][k - 1] == ps[k];
        }
      }
    }
  }

  /** With unique provider ids, report 14 gives each provider the summed quantity of its
      listings, and lists it exactly when it has a listing. */
  lemma QuantityPerProviderTotals(ps: seq<Provider>, ls: seq<Listing>, k: nat)
    requires UniqueKeys(ps, ProviderKey)
    requires k < |ps|
    ensures TotalOf(QuantityPerProvider(ps, ls), ProviderIdentity(ps[k])) == QuantityOf(ls, ps[k].providerId)
    ensures ProviderIdentity(ps[k]) in KeySet(QuantityPerProvider(ps, ls))
            <==> HasKey(ls, ListingProvider, ps[k].providerId)
  {
    var who := ProviderIdentity(ps[k]);
    SumTotalOf(QuantityPerProvider(ps, ls), QuantityEntries(ps, ls), who);
    QuantityEntriesWeight(ps, ls, who);
    ProviderIdentityOnce(ps, k);
    QuantityEntriesKeys(ps, ls, who);
  }
}
