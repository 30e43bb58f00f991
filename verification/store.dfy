/** The record store: the single-row `INSERT`, `UPDATE` and `DELETE` statements the forms issue
    (app.py lines 140-255). Every statement runs in its own transaction, so a statement that
    fails leaves its table as it was. */
module Store {
  import opened Outcomes
  import opened Seqs
  import opened Schema

  /** `INSERT` of one row. The strict inserts into `food_listings` and `claims` and the
      provider/receiver "Create/Replace" (a one-row `to_sql(..., if_exists="append")`) are the same
      statement: the row goes to the end of the table, unless the declared primary key is still in
      force and a row with the same key exists, in which case the statement aborts. */
  function Insert<T>(t: Table<T>, row: T, key: T -> int): (r: Result<Table<T>>)
    ensures r.Err? <==> t.keyed && HasKey(t.rows, key, key(row))
    ensures r.Err? ==> r.error == DuplicateKey(key(row))
    ensures r.Ok? ==> r.value.keyed == t.keyed && r.value.rows == t.rows + [row]
  {
    if t.keyed && HasKey(t.rows, key, key(row)) then Err(DuplicateKey(key(row)))
    else Ok(Table(t.rows + [row], t.keyed))
  }

  /** An insert that succeeds keeps the storage invariant. */
  lemma InsertKeepsValid<T>(t: Table<T>, row: T, key: T -> int)
    requires Valid(t, key)
    requires Insert(t, row, key).Ok?
    ensures Valid(Insert(t, row, key).value, key)
  {
    var rows := t.rows + [row];
    if t.keyed {
      forall i, j | 0 <= i < j < |rows| ensures key(rows[i]) != key(rows[j]) {
        if j == |t.rows| {
          assert rows[i] == t.rows[i];
        } else {
          assert rows[i] == t.rows[i] && rows[j] == t.rows[j];
        }
      }
    }
  }

  /** Create, then read back by key: while the primary key is in force, a successful insert
      leaves exactly one row with that key, the inserted one. */
  lemma CreateThenRead<T>(t: Table<T>, row: T, key: T -> int)
    requires t.keyed
    requires Insert(t, row, key).Ok?
    ensures RowsWithKey(Insert(t, row, key).value.rows, key, key(row)) == [row]
  {
    RowsWithKeyConcat(t.rows, [row], key, key(row));
    assert [row][1..] == [];
  }

  /** Once a replace-import has dropped the declared key, inserting a row whose key is already
      present succeeds and leaves two rows with that key. */
  lemma ImportDropsKeyGuard<T>(rows: seq<T>, row: T, key: T -> int)
    requires HasKey(rows, key, key(row))
    ensures Insert(Table(rows, false), row, key).Ok?
    ensures !UniqueKeys(Insert(Table(rows, false), row, key).value.rows, key)
  {
    var i :| 0 <= i < |rows| && key(rows[i]) == key(row);
    var after := rows + [row];
    assert after[i] == rows[i] && after[|rows|] == row;
  }

  /** While the declared key is in force, a duplicate insert fails and changes nothing. */
  lemma DuplicateInsertRejected<T>(t: Table<T>, row: T, key: T -> int, other: nat)
    requires t.keyed
    requires other < |t.rows| && key(t.rows[other]) == key(row)
    ensures Insert(t, row, key) == Err(DuplicateKey(key(row)))
  {
  }

  /** `UPDATE food_listings SET Quantity, Expiry_Date, Location WHERE Food_ID = :id`. */
  function UpdateListing(t: Table<Listing>, foodId: int, quantity: int, expiry: Day, location: string)
    : (r: Table<Listing>)
    ensures r.keyed == t.keyed && |r.rows| == |t.rows|
    ensures forall i :: 0 <= i < |t.rows| ==>
              r.rows[i].(quantity := t.rows[i].quantity, expiry := t.rows[i].expiry,
                         location := t.rows[i].location) == t.rows[i]
    ensures forall i :: 0 <= i < |t.rows| && t.rows[i].foodId == foodId ==>
              r.rows[i].quantity == quantity && r.rows[i].expiry == expiry && r.rows[i].location == location
    ensures forall i :: 0 <= i < |t.rows| && t.rows[i].foodId != foodId ==> r.rows[i] == t.rows[i]
  {
    Table(seq(|t.rows|, i requires 0 <= i < |t.rows| =>
            if t.rows[i].foodId == foodId
            then t.rows[i].(quantity := quantity, expiry := expiry, location := location)
            else t.rows[i]),
          t.keyed)
  }

  /** `UPDATE claims SET Status, Timestamp WHERE Claim_ID = :id`. */
  function UpdateClaim(t: Table<Claim>, claimId: int, status: string, timestamp: string): (r: Table<Claim>)
    ensures r.keyed == t.keyed && |r.rows| == |t.rows|
    ensures forall i :: 0 <= i < |t.rows| ==>
              r.rows[i].(status := t.rows[i].status, timestamp := t.rows[i].timestamp) == t.rows[i]
    ensures forall i :: 0 <= i < |t.rows| && t.rows[i].claimId == claimId ==>
              r.rows[i].status == status && r.rows[i].timestamp == timestamp
    ensures forall i :: 0 <= i < |t.rows| && t.rows[i].claimId != claimId ==> r.rows[i] == t.rows[i]
  {
    Table(seq(|t.rows|, i requires 0 <= i < |t.rows| =>
            if t.rows[i].claimId == claimId then t.rows[i].(status := status, timestamp := timestamp)
            else t.rows[i]),
          t.keyed)
  }

  /** An update whose key matches no row affects zero rows and is not an error. */
  lemma UpdateMissingKeyIsNoOp(listings: Table<Listing>, claims: Table<Claim>, id: int,
                               quantity: int, expiry: Day, location: string, status: string, timestamp: string)
    ensures !HasKey(listings.rows, ListingKey, id) ==> UpdateListing(listings, id, quantity, expiry, location) == listings
    ensures !HasKey(claims.rows, ClaimKey, id) ==> UpdateClaim(claims, id, status, timestamp) == claims
  {
    if !HasKey(listings.rows, ListingKey, id) {
      var r := UpdateListing(listings, id, quantity, expiry, location);
      forall i | 0 <= i < |listings.rows| ensures r.rows[i] == listings.rows[i] {
        assert ListingKey(listings.rows[i]) != id;
      }
    }
    if !HasKey(claims.rows, ClaimKey, id) {
      var r := UpdateClaim(claims, id, status, timestamp);
      forall i | 0 <= i < |claims.rows| ensures r.rows[i] == claims.rows[i] {
        assert ClaimKey(claims.rows[i]) != id;
      }
    }
  }

  /** Updates never touch the key column, so they keep the storage invariant; repeating an
      update changes nothing more. */
  lemma UpdatesKeepValid(listings: Table<Listing>, claims: Table<Claim>, id: int,
                         quantity: int, expiry: Day, location: string, status: string, timestamp: string)
    requires Valid(listings, ListingKey) && Valid(claims, ClaimKey)
    ensures Valid(UpdateListing(listings, id, quantity, expiry, location), ListingKey)
    ensures Valid(UpdateClaim(claims, id, status, timestamp), ClaimKey)
    ensures var once := UpdateListing(listings, id, quantity, expiry, location);
            UpdateListing(once, id, quantity, expiry, location) == once
    ensures var once := UpdateClaim(claims, id, status, timestamp);
            UpdateClaim(once, id, status, timestamp) == once
  {
  }

  /** The rows whose key differs from `id`, in their original order. */
  function Without<T>(rows: seq<T>, key: T -> int, id: int): (r: seq<T>)
    ensures IsSubseq(r, rows)
    ensures |r| == |rows| - KeyCount(rows, key, id)
    ensures forall i :: 0 <= i < |r| ==> key(r[i]) != id
    ensures forall i :: 0 <= i < |rows| && key(rows[i]) != id ==> rows[i] in r
    decreases |rows|
  {
    if |rows| == 0 then []
    else
      var rest := Without(rows[1..], key, id);
      assert forall i :: 1 <= i < |rows| && key(rows[i]) != id ==> rows[i] in rest by {
        forall i | 1 <= i < |rows| && key(rows[i]) != id ensures rows[i] in rest {
          assert rows[1..][i - 1] == rows[i];
        }
      }
      if key(rows[0]) == id then rest else [rows[0]] + rest
  }

  /** `DELETE FROM t WHERE key = :id`: removes exactly the rows with that key and keeps every
      other row, in order. */
  function DeleteByKey<T>(t: Table<T>, key: T -> int, id: int): (r: Table<T>)
    ensures r.keyed == t.keyed
    ensures IsSubseq(r.rows, t.rows)
    ensures |r.rows| == |t.rows| - KeyCount(t.rows, key, id)
    ensures !HasKey(r.rows, key, id)
    ensures forall i :: 0 <= i < |t.rows| && key(t.rows[i]) != id ==> t.rows[i] in r.rows
  {
    Table(Without(t.rows, key, id), t.keyed)
  }

  lemma {:induction false} WithoutMissingKey<T>(rows: seq<T>, key: T -> int, id: int)
    requires !HasKey(rows, key, id)
    ensures Without(rows, key, id) == rows
    decreases |rows|
  {
    if |rows| > 0 {
      assert key(rows[0]) != id;
      assert !HasKey(rows[1..], key, id) by {
        forall i | 0 <= i < |rows[1..]| ensures key(rows[1..][i]) != id {
          assert rows[1..][i] == rows[i + 1];
        }
      }
      WithoutMissingKey(rows[1..], key, id);
    }
  }

  /** Deleting a key that no row carries affects zero rows. */
  lemma DeleteMissingKeyIsNoOp<T>(t: Table<T>, key: T -> int, id: int)
    requires !HasKey(t.rows, key, id)
    ensures DeleteByKey(t, key, id) == t
  {
    WithoutMissingKey(t.rows, key, id);
  }

  /** Delete, then read back by key: nothing is left. */
  lemma DeleteThenRead<T>(t: Table<T>, key: T -> int, id: int)
    ensures RowsWithKey(DeleteByKey(t, key, id).rows, key, id) == []
  {
  }

  lemma {:induction false} WithoutKeepsUnique<T>(rows: seq<T>, key: T -> int, id: int)
    requires UniqueKeys(rows, key)
    ensures UniqueKeys(Without(rows, key, id), key)
    decreases |rows|
  {
    if |rows| > 0 {
      assert UniqueKeys(rows[1..], key) by {
        forall i, j | 0 <= i < j < |rows[1..]| ensures key(rows[1..][i]) != key(rows[1..][j]) {
          assert rows[1..][i] == rows[i + 1] && rows[1..][j] == rows[j + 1];
        }
      }
      WithoutKeepsUnique(rows[1..], key, id);
      var rest := Without(rows[1..], key, id);
      if key(rows[0]) != id {
        var r := [rows[0]] + rest;
        forall j | 0 <= j < |rest| ensures key(rest[j]) != key(rows[0]) {
          SubseqMember(rest, rows[1..], j);
          var m :| 0 <= m < |rows[1..]| && rows[1..][m] == rest[j];
          assert rows[1..][m] == rows[m + 1];
        }
        forall i, j | 0 <= i < j < |r| ensures key(r[i]) != key(r[j]) {
          if i == 0 {
            assert r[j] == rest[j - 1];
          } else {
            assert r[i] == rest[i - 1] && r[j] == rest[j - 1];
          }
        }
      }
    }
  }

  /** A delete keeps the storage invariant. */
  lemma DeleteKeepsValid<T>(t: Table<T>, key: T -> int, id: int)
    requires Valid(t, key)
    ensures Valid(DeleteByKey(t, key, id), key)
  {
    if t.keyed {
      WithoutKeepsUnique(t.rows, key, id);
    }
  }
}
