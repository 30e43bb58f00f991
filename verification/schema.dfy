/** The four tables of the food-wastage dashboard and the start-up schema step
    (`CREATE TABLE IF NOT EXISTS`, app.py lines 29-70). */
module Schema {
  import opened Outcomes
  import opened Seqs

  /** A calendar date as a day number; only the order of days and adding days matter. */
  type Day = int

  /** A `providers` row. `kind` is the `Type` column, the only nullable text column the model keeps,
      because the provider-type report falls back to the listing's own copy when it is NULL. */
  datatype Provider = Provider(
    providerId: int, name: string, kind: Option<string>, address: string, city: string, contact: string)

  /** A `receivers` row; `kind` is the `Type` column. */
  datatype Receiver = Receiver(receiverId: int, name: string, kind: string, city: string, contact: string)

  /** A `food_listings` row. */
  datatype Listing = Listing(
    foodId: int, foodName: string, quantity: int, expiry: Day, providerId: int,
    providerType: string, location: string, foodType: string, mealType: string)

  /** A `claims` row; the timestamp is never compared, so it stays opaque text. */
  datatype Claim = Claim(claimId: int, foodId: int, receiverId: int, status: string, timestamp: string)

  /** The status value several reports single out. */
  const Completed: string := "Completed"

  /** A table: its rows in storage order, and whether the `PRIMARY KEY` declared at start-up is
      still in force. A replace-import recreates the table from a data frame without one. */
  datatype Table<T> = Table(rows: seq<T>, keyed: bool)

  function ProviderKey(p: Provider): int { p.providerId }
  function ReceiverKey(r: Receiver): int { r.receiverId }
  function ListingKey(l: Listing): int { l.foodId }
  function ClaimKey(c: Claim): int { c.claimId }

  /** Some row carries key `id`. */
  predicate HasKey<T>(rows: seq<T>, key: T -> int, id: int) {
    exists i :: 0 <= i < |rows| && key(rows[i]) == id
  }

  ghost predicate UniqueKeys<T>(rows: seq<T>, key: T -> int) {
    forall i, j :: 0 <= i < j < |rows| ==> key(rows[i]) != key(rows[j])
  }

  /** The storage invariant: while the primary key is declared, no two rows share it. */
  ghost predicate Valid<T>(t: Table<T>, key: T -> int) {
    t.keyed ==> UniqueKeys(t.rows, key)
  }

  /** Keeping only some rows, in order, keeps keys unique. */
  lemma {:induction false} SubseqKeepsUnique<T>(a: seq<T>, b: seq<T>, key: T -> int)
    requires IsSubseq(a, b)
    requires UniqueKeys(b, key)
    ensures UniqueKeys(a, key)
    decreases |b|
  {
    if |a| > 0 {
      assert UniqueKeys(b[1..], key) by {
        forall i, j | 0 <= i < j < |b[1..]| ensures key(b[1..][i]) != key(b[1..][j]) {
          assert b[1..][i] == b[i + 1] && b[1..][j] == b[j + 1];
        }
      }
      if a[0] == b[0] && IsSubseq(a[1..], b[1..]) {
        SubseqKeepsUnique(a[1..], b[1..], key);
        forall i, j | 0 <= i < j < |a| ensures key(a[i]) != key(a[j]) {
          SubseqMember(a[1..], b[1..], j - 1);
          var m :| 0 <= m < |b[1..]| && b[1..][m] == a[1..][j - 1];
          assert b[m + 1] == a[j];
          if i > 0 {
            assert a[1..][i - 1] == a[i] && a[1..][j - 1] == a[j];
          }
        }
      } else {
        SubseqKeepsUnique(a, b[1..], key);
      }
    }
  }

  /** Reordering rows keeps keys unique. */
  lemma UniqueKeysPermutation<T>(a: seq<T>, b: seq<T>, key: T -> int)
    requires multiset(a) == multiset(b)
    requires UniqueKeys(a, key)
    ensures UniqueKeys(b, key)
  {
    assert NoDup(a) by {
      forall i, j | 0 <= i < j < |a| ensures a[i] != a[j] {
        assert key(a[i]) != key(a[j]);
      }
    }
    NoDupPermutation(a, b);
    forall i, j | 0 <= i < j < |b| ensures key(b[i]) != key(b[j]) {
      assert b[i] in multiset(a) && b[j] in multiset(a);
      var p :| 0 <= p < |a| && a[p] == b[i];
      var q :| 0 <= q < |a| && a[q] == b[j];
      assert p != q;
      if p < q {
        assert key(a[p]) != key(a[q]);
      } else {
        assert key(a[q]) != key(a[p]);
      }
    }
  }

  /** The rows carrying key `id`: `SELECT * FROM t WHERE key = :id`. */
  function RowsWithKey<T>(rows: seq<T>, key: T -> int, id: int): (r: seq<T>)
    ensures |r| <= |rows|
    ensures forall i :: 0 <= i < |r| ==> key(r[i]) == id
    ensures |r| == 0 <==> !HasKey(rows, key, id)
    ensures |r| == KeyCount(rows, key, id)
    ensures forall i :: 0 <= i < |r| ==> r[i] in rows
    ensures IsSubseq(r, rows)
    decreases |rows|
  {
    if |rows| == 0 then []
    else if key(rows[0]) == id then
      var rest := RowsWithKey(rows[1..], key, id);
      assert forall i :: 0 <= i < |rest| ==> rest[i] in rows;
      [rows[0]] + rest
    else
      assert HasKey(rows, key, id) ==> HasKey(rows[1..], key, id) by {
        if HasKey(rows, key, id) {
          var i :| 0 <= i < |rows| && key(rows[i]) == id;
          assert rows[1..][i - 1] == rows[i];
        }
      }
      RowsWithKey(rows[1..], key, id)
  }

  /** The query returns each row with key `id` as often as it is stored, and no other row. */
  lemma {:induction false} RowsWithKeyMultiset<T>(rows: seq<T>, key: T -> int, id: int, x: T)
    ensures multiset(RowsWithKey(rows, key, id))[x] == if key(x) == id then multiset(rows)[x] else 0
    decreases |rows|
  {
    if |rows| > 0 {
      assert rows == [rows[0]] + rows[1..];
      RowsWithKeyMultiset(rows[1..], key, id, x);
    }
  }

  lemma {:induction false} RowsWithKeyConcat<T>(a: seq<T>, b: seq<T>, key: T -> int, id: int)
    ensures RowsWithKey(a + b, key, id) == RowsWithKey(a, key, id) + RowsWithKey(b, key, id)
    decreases |a|
  {
    if |a| == 0 {
      assert a + b == b;
    } else {
      assert (a + b)[1..] == a[1..] + b;
      RowsWithKeyConcat(a[1..], b, key, id);
    }
  }

  /** Number of rows carrying key `id`. */
  function KeyCount<T>(rows: seq<T>, key: T -> int, id: int): (n: nat)
    ensures n <= |rows|
    ensures n == 0 <==> !HasKey(rows, key, id)
    decreases |rows|
  {
    if |rows| == 0 then 0
    else
      assert HasKey(rows, key, id) && key(rows[0]) != id ==> HasKey(rows[1..], key, id) by {
        if HasKey(rows, key, id) && key(rows[0]) != id {
          var i :| 0 <= i < |rows| && key(rows[i]) == id;
          assert rows[1..][i - 1] == rows[i];
        }
      }
      (if key(rows[0]) == id then 1 else 0) + KeyCount(rows[1..], key, id)
  }

  /** Under a unique key, at most one row carries any given key. */
  lemma {:induction false} UniqueKeyCount<T>(rows: seq<T>, key: T -> int, id: int)
    requires UniqueKeys(rows, key)
    ensures KeyCount(rows, key, id) <= 1
    decreases |rows|
  {
    if |rows| > 0 {
      assert UniqueKeys(rows[1..], key) by {
        forall i, j | 0 <= i < j < |rows[1..]| ensures key(rows[1..][i]) != key(rows[1..][j]) {
          assert rows[1..][i] == rows[i + 1] && rows[1..][j] == rows[j + 1];
        }
      }
      if key(rows[0]) == id {
        assert !HasKey(rows[1..], key, id) by {
          forall i | 0 <= i < |rows[1..]| ensures key(rows[1..][i]) != id {
            assert rows[1..][i] == rows[i + 1];
          }
        }
      } else {
        UniqueKeyCount(rows[1..], key, id);
      }
    }
  }

  function ClaimFood(c: Claim): int { c.foodId }
  function ClaimReceiver(c: Claim): int { c.receiverId }
  function ListingProvider(l: Listing): int { l.providerId }

  /** The claim is a completed claim on listing `foodId`. */
  predicate CompletedFor(c: Claim, foodId: int) {
    c.foodId == foodId && c.status == Completed
  }

  predicate HasCompletedClaim(cs: seq<Claim>, foodId: int) {
    exists i :: 0 <= i < |cs| && CompletedFor(cs[i], foodId)
  }

  /** Number of completed claims on listing `foodId`. */
  function CompletedCount(cs: seq<Claim>, foodId: int): (n: nat)
    ensures n <= |cs|
    ensures n > 0 <==> HasCompletedClaim(cs, foodId)
    decreases |cs|
  {
    if |cs| == 0 then 0
    else
      assert HasCompletedClaim(cs, foodId) && !CompletedFor(cs[0], foodId) ==> HasCompletedClaim(cs[1..], foodId) by {
        if HasCompletedClaim(cs, foodId) && !CompletedFor(cs[0], foodId) {
          var i :| 0 <= i < |cs| && CompletedFor(cs[i], foodId);
          assert cs[1..][i - 1] == cs[i];
        }
      }
      (if CompletedFor(cs[0], foodId) then 1 else 0) + CompletedCount(cs[1..], foodId)
  }

  /** The whole database. */
  datatype Db = Db(
    providers: Table<Provider>, receivers: Table<Receiver>,
    listings: Table<Listing>, claims: Table<Claim>)

  ghost predicate DbValid(db: Db) {
    && Valid(db.providers, ProviderKey)
    && Valid(db.receivers, ReceiverKey)
    && Valid(db.listings, ListingKey)
    && Valid(db.claims, ClaimKey)
  }

  /** What the database file holds before start-up: each table may or may not exist yet. */
  datatype Catalog = Catalog(
    providers: Option<Table<Provider>>, receivers: Option<Table<Receiver>>,
    listings: Option<Table<Listing>>, claims: Option<Table<Claim>>)

  /** `CREATE TABLE IF NOT EXISTS`: an existing table is kept as it is, otherwise an empty
      table with its declared primary key is created. */
  function EnsureTable<T>(existing: Option<Table<T>>): (t: Table<T>)
    ensures existing.Some? ==> t == existing.value
    ensures existing.None? ==> t.rows == [] && t.keyed
  {
    match existing
    case Some(table) => table
    case None => Table([], true)
  }

  /** Every table the catalog already holds satisfies the storage invariant. */
  ghost predicate CatalogValid(cat: Catalog) {
    && (cat.providers.Some? ==> Valid(cat.providers.value, ProviderKey))
    && (cat.receivers.Some? ==> Valid(cat.receivers.value, ReceiverKey))
    && (cat.listings.Some? ==> Valid(cat.listings.value, ListingKey))
    && (cat.claims.Some? ==> Valid(cat.claims.value, ClaimKey))
  }

  /** The start-up block: makes sure all four tables exist, never touching one that does. */
  function Startup(cat: Catalog): (db: Db)
    ensures CatalogValid(cat) ==> DbValid(db)
    ensures cat.providers.Some? ==> db.providers == cat.providers.value
    ensures cat.receivers.Some? ==> db.receivers == cat.receivers.value
    ensures cat.listings.Some? ==> db.listings == cat.listings.value
    ensures cat.claims.Some? ==> db.claims == cat.claims.value
    ensures cat.providers.None? ==> db.providers == Table([], true)
    ensures cat.receivers.None? ==> db.receivers == Table([], true)
    ensures cat.listings.None? ==> db.listings == Table([], true)
    ensures cat.claims.None? ==> db.claims == Table([], true)
  {
    Db(EnsureTable(cat.providers), EnsureTable(cat.receivers),
       EnsureTable(cat.listings), EnsureTable(cat.claims))
  }

  /** The catalog of a running database: every table exists. */
  function Present(db: Db): Catalog {
    Catalog(Some(db.providers), Some(db.receivers), Some(db.listings), Some(db.claims))
  }

  /** Running the start-up block again on the database it produced changes nothing. */
  lemma StartupIdempotent(cat: Catalog)
    ensures Startup(Present(Startup(cat))) == Startup(cat)
  {
  }
}
