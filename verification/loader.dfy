/** The CSV import tab (app.py lines 77-101): every uploaded file is routed to a table by its
    lower-cased name and replaces that table wholesale (`to_sql(..., if_exists="replace")`),
    which recreates the table from the data frame and so drops its declared primary key.
    Reading the CSV text into rows is not modelled: an upload carries its rows already read
    as each table's row type, and routing decides which reading is stored. */
module Loader {
  import opened Outcomes
  import opened Schema

  datatype TableName = Providers | Receivers | FoodListings | Claims

  /** The data rows of one uploaded file, read as each table's row type. */
  datatype Frame = Frame(
    asProviders: seq<Provider>, asReceivers: seq<Receiver>,
    asListings: seq<Listing>, asClaims: seq<Claim>)

  datatype Upload = Upload(name: string, frame: Frame)

  /** The message the import tab shows for one file. */
  datatype Notice = Loaded(table: TableName, rowCount: nat) | UnknownCsv(name: string)

  /** Lower-cases ASCII letters; other characters are kept. */
  function LowerChar(c: char): (r: char)
    ensures 'A' <= c <= 'Z' ==> 'a' <= r <= 'z' && r as int - c as int == 'a' as int - 'A' as int
    ensures !('A' <= c <= 'Z') ==> r == c
  {
    if 'A' <= c <= 'Z' then (c as int - 'A' as int + 'a' as int) as char else c
  }

  function Lower(s: string): (r: string)
    ensures |r| == |s|
    ensures forall i :: 0 <= i < |s| ==> r[i] == LowerChar(s[i])
  {
    seq(|s|, i requires 0 <= i < |s| => LowerChar(s[i]))
  }

  /** Lower-casing twice is lower-casing once. */
  lemma LowerIdempotent(s: string)
    ensures Lower(Lower(s)) == Lower(s)
  {
    var once := Lower(s);
    var twice := Lower(once);
    forall i | 0 <= i < |s| ensures twice[i] == once[i] {
      assert !('A' <= once[i] <= 'Z');
    }
  }

  /** `part` occurs in `s` starting at position `i`. */
  predicate OccursAt(s: string, part: string, i: int) {
    0 <= i <= |s| - |part| && s[i..i + |part|] == part
  }

  /** Python's `part in s` for strings: `part` occurs in `s` as a contiguous substring. */
  predicate Contains(s: string, part: string) {
    exists i | 0 <= i <= |s| - |part| :: OccursAt(s, part, i)
  }

  /** A name lacking one of the characters of `part` does not contain `part`. */
  lemma MissingCharNotContained(s: string, part: string, k: nat)
    requires k < |part| && part[k] !in s
    ensures !Contains(s, part)
  {
    forall i | 0 <= i <= |s| - |part| ensures !OccursAt(s, part, i) {
      assert s[i + k] in s;
      assert s[i..i + |part|][k] == s[i + k];
    }
  }

  /** The table a file goes to. The name is lower-cased, then the tests are tried in order and
      the first one that matches wins; a name matching none is written nowhere. */
  function Route(fileName: string): (r: Option<TableName>)
    ensures var n := Lower(fileName);
      && (r == Some(Providers) <==> Contains(n, "providers"))
      && (r == Some(Receivers) <==> !Contains(n, "providers") && Contains(n, "receivers"))
      && (r == Some(FoodListings) <==>
            !Contains(n, "providers") && !Contains(n, "receivers") && Contains(n, "food") && Contains(n, "list"))
      && (r == Some(Claims) <==>
            !Contains(n, "providers") && !Contains(n, "receivers") && !(Contains(n, "food") && Contains(n, "list"))
            && Contains(n, "claim"))
  {
    var n := Lower(fileName);
    if Contains(n, "providers") then Some(Providers)
    else if Contains(n, "receivers") then Some(Receivers)
    else if Contains(n, "food") && Contains(n, "list") then Some(FoodListings)
    else if Contains(n, "claim") then Some(Claims)
    else None
  }

  /** Routing ignores letter case: names that agree after lower-casing go to the same table. */
  lemma RouteIgnoresCase(a: string, b: string)
    requires Lower(a) == Lower(b)
    ensures Route(a) == Route(b)
  {
  }

  /** A name without upper-case letters is its own lower-case form. */
  lemma LowerOfLowerCase(s: string)
    requires forall i :: 0 <= i < |s| ==> !('A' <= s[i] <= 'Z')
    ensures Lower(s) == s
  {
  }

  lemma ProvidersFileLower()
    ensures Lower("providers_data.csv") == "providers_data.csv"
  {
    var name := "providers_data.csv";
    LowerOfLowerCase(name);
  }

  lemma ProvidersFileMatches()
    ensures Contains("providers_data.csv", "providers")
  {
    var name := "providers_data.csv";
    assert OccursAt(name, "providers", 0);
  }

  lemma RouteProvidersFile()
    ensures Route("providers_data.csv") == Some(Providers)
  {
    ProvidersFileLower();
    ProvidersFileMatches();
  }

  lemma ReceiversFileLower()
    ensures Lower("receivers_data.csv") == "receivers_data.csv"
  {
    var name := "receivers_data.csv";
    LowerOfLowerCase(name);
  }

  lemma ReceiversFileMisses()
    ensures !Contains("receivers_data.csv", "providers")
  {
    var name := "receivers_data.csv";
    MissingCharNotContained(name, "providers", 0);
  }

  lemma ReceiversFileMatches()
    ensures Contains("receivers_data.csv", "receivers")
  {
    var name := "receivers_data.csv";
    assert OccursAt(name, "receivers", 0);
  }

  lemma RouteReceiversFile()
    ensures Route("receivers_data.csv") == Some(Receivers)
  {
    ReceiversFileLower();
    ReceiversFileMisses();
    ReceiversFileMatches();
  }

  lemma ListingsFileLower()
    ensures Lower("food_listings_data.csv") == "food_listings_data.csv"
  {
    var name := "food_listings_data.csv";
    LowerOfLowerCase(name);
  }

  lemma ListingsFileMisses()
    ensures !Contains("food_listings_data.csv", "providers")
    ensures !Contains("food_listings_data.csv", "receivers")
  {
    var name := "food_listings_data.csv";
    MissingCharNotContained(name, "providers", 0);
    MissingCharNotContained(name, "receivers", 0);
  }

  lemma ListingsFileMatches()
    ensures Contains("food_listings_data.csv", "food")
    ensures Contains("food_listings_data.csv", "list")
  {
    var name := "food_listings_data.csv";
    assert OccursAt(name, "food", 0);
    assert OccursAt(name, "list", 5);
  }

  lemma RouteListingsFile()
    ensures Route("food_listings_data.csv") == Some(FoodListings)
  {
    ListingsFileLower();
    ListingsFileMisses();
    ListingsFileMatches();
  }

  lemma ClaimsFileLower()
    ensures Lower("claims_data.csv") == "claims_data.csv"
  {
    var name := "claims_data.csv";
    LowerOfLowerCase(name);
  }

  lemma ClaimsFileMisses()
    ensures !Contains("claims_data.csv", "providers")
    ensures !Contains("claims_data.csv", "receivers")
    ensures !Contains("claims_data.csv", "food")
  {
    var name := "claims_data.csv";
    MissingCharNotContained(name, "providers", 0);
    MissingCharNotContained(name, "receivers", 0);
    MissingCharNotContained(name, "food", 0);
  }

  lemma ClaimsFileMatches()
    ensures Contains("claims_data.csv", "claim")
  {
    var name := "claims_data.csv";
    assert OccursAt(name, "claim", 0);
  }

  lemma RouteClaimsFile()
    ensures Route("claims_data.csv") == Some(Claims)
  {
    ClaimsFileLower();
    ClaimsFileMisses();
    ClaimsFileMatches();
  }

  /** The four file names the import tab suggests reach their tables. */
  lemma RouteSuggestedNames()
    ensures Route("providers_data.csv") == Some(Providers)
    ensures Route("receivers_data.csv") == Some(Receivers)
    ensures Route("food_listings_data.csv") == Some(FoodListings)
    ensures Route("claims_data.csv") == Some(Claims)
  {
    RouteProvidersFile();
    RouteReceiversFile();
    RouteListingsFile();
    RouteClaimsFile();
  }

  lemma LowerUpperCaseName()
    ensures Lower("Claims_Of_Food_List.CSV") == "claims_of_food_list.csv"
  {
  }

  lemma UpperCaseNameMisses()
    ensures !Contains("claims_of_food_list.csv", "providers")
    ensures !Contains("claims_of_food_list.csv", "receivers")
  {
    var name := "claims_of_food_list.csv";
    MissingCharNotContained(name, "providers", 0);
    MissingCharNotContained(name, "receivers", 0);
  }

  lemma UpperCaseNameMatches()
    ensures Contains("claims_of_food_list.csv", "food")
    ensures Contains("claims_of_food_list.csv", "list")
  {
    var name := "claims_of_food_list.csv";
    assert OccursAt(name, "food", 10);
    assert OccursAt(name, "list", 15);
  }

  lemma RouteUpperCaseName()
    ensures Route("Claims_Of_Food_List.CSV") == Some(FoodListings)
  {
    LowerUpperCaseName();
    UpperCaseNameMisses();
    UpperCaseNameMatches();
  }

  lemma FoodClaimsLower()
    ensures Lower("food_claims.csv") == "food_claims.csv"
  {
    var name := "food_claims.csv";
    LowerOfLowerCase(name);
  }

  lemma FoodClaimsMisses()
    ensures !Contains("food_claims.csv", "providers")
    ensures !Contains("food_claims.csv", "receivers")
    ensures !Contains("food_claims.csv", "list")
  {
    var name := "food_claims.csv";
    MissingCharNotContained(name, "providers", 0);
    MissingCharNotContained(name, "receivers", 0);
    MissingCharNotContained(name, "list", 3);
  }

  lemma FoodClaimsMatches()
    ensures Contains("food_claims.csv", "claim")
  {
    var name := "food_claims.csv";
    assert OccursAt(name, "claim", 5);
  }

  lemma RouteFoodWithoutList()
    ensures Route("food_claims.csv") == Some(Claims)
  {
    FoodClaimsLower();
    FoodClaimsMisses();
    FoodClaimsMatches();
  }

  lemma MenuFileLower()
    ensures Lower("menu.csv") == "menu.csv"
  {
    var name := "menu.csv";
    LowerOfLowerCase(name);
  }

  lemma MenuFileMisses()
    ensures !Contains("menu.csv", "providers")
    ensures !Contains("menu.csv", "receivers")
    ensures !Contains("menu.csv", "food")
    ensures !Contains("menu.csv", "claim")
  {
    var name := "menu.csv";
    MissingCharNotContained(name, "providers", 0);
    MissingCharNotContained(name, "receivers", 0);
    MissingCharNotContained(name, "food", 0);
    MissingCharNotContained(name, "claim", 1);
  }

  lemma RouteUnknownName()
    ensures Route("menu.csv") == None
  {
    MenuFileLower();
    MenuFileMisses();
  }

  /** A name matching several tests goes to the first that matches, whatever its letter case;
      a name that matches none goes nowhere. */
  lemma RouteFirstMatchWins()
    ensures Route("Claims_Of_Food_List.CSV") == Some(FoodListings)
    ensures Route("food_claims.csv") == Some(Claims)
    ensures Route("menu.csv") == None
  {
    RouteUpperCaseName();
    RouteFoodWithoutList();
    RouteUnknownName();
  }

  /** A replace-import: the table's rows become exactly the file's rows, with no declared key. */
  function Replace<T>(rows: seq<T>): (t: Table<T>)
    ensures t.rows == rows && !t.keyed
  {
    Table(rows, false)
  }

  /** One uploaded file: the table it routes to is replaced, every other table is untouched;
      an unrecognised name changes nothing and yields a warning. */
  function ImportFile(db: Db, f: Upload): (r: (Db, Notice))
    ensures Route(f.name).None? ==> r.0 == db && r.1 == UnknownCsv(f.name)
    ensures Route(f.name) == Some(Providers) ==>
              r.0 == db.(providers := Replace(f.frame.asProviders)) && r.1 == Loaded(Providers, |f.frame.asProviders|)
    ensures Route(f.name) == Some(Receivers) ==>
              r.0 == db.(receivers := Replace(f.frame.asReceivers)) && r.1 == Loaded(Receivers, |f.frame.asReceivers|)
    ensures Route(f.name) == Some(FoodListings) ==>
              r.0 == db.(listings := Replace(f.frame.asListings)) && r.1 == Loaded(FoodListings, |f.frame.asListings|)
    ensures Route(f.name) == Some(Claims) ==>
              r.0 == db.(claims := Replace(f.frame.asClaims)) && r.1 == Loaded(Claims, |f.frame.asClaims|)
  {
    match Route(f.name)
    case None => (db, UnknownCsv(f.name))
    case Some(Providers) => (db.(providers := Replace(f.frame.asProviders)), Loaded(Providers, |f.frame.asProviders|))
    case Some(Receivers) => (db.(receivers := Replace(f.frame.asReceivers)), Loaded(Receivers, |f.frame.asReceivers|))
    case Some(FoodListings) => (db.(listings := Replace(f.frame.asListings)), Loaded(FoodListings, |f.frame.asListings|))
    case Some(Claims) => (db.(claims := Replace(f.frame.asClaims)), Loaded(Claims, |f.frame.asClaims|))
  }

  /** Importing the same file twice leaves the same database as importing it once. */
  lemma ImportFileIdempotent(db: Db, f: Upload)
    ensures ImportFile(ImportFile(db, f).0, f) == ImportFile(db, f)
  {
  }

  /** A replace-import keeps the storage invariant: the recreated table declares no key. */
  lemma ImportFileKeepsValid(db: Db, f: Upload)
    requires DbValid(db)
    ensures DbValid(ImportFile(db, f).0)
  {
  }

  /** The files of one upload, processed in order inside one transaction. */
  function ImportAll(db: Db, files: seq<Upload>): (r: (Db, seq<Notice>))
    ensures |r.1| == |files|
    decreases |files|
  {
    if |files| == 0 then (db, [])
    else
      var (before, notices) := ImportAll(db, files[..|files| - 1]);
      var (after, notice) := ImportFile(before, files[|files| - 1]);
      (after, notices + [notice])
  }

  /** The last file of the batch that routes to `t`, if any. */
  function LastRoutedTo(files: seq<Upload>, t: TableName): (r: Option<Upload>)
    ensures r.Some? ==> r.value in files && Route(r.value.name) == Some(t)
    decreases |files|
  {
    if |files| == 0 then None
    else if Route(files[|files| - 1].name) == Some(t) then Some(files[|files| - 1])
    else
      var r := LastRoutedTo(files[..|files| - 1], t);
      assert r.Some? ==> r.value in files by {
        if r.Some? {
          var i :| 0 <= i < |files| - 1 && files[..|files| - 1][i] == r.value;
          assert files[i] == r.value;
        }
      }
      r
  }

  /** After a batch, each table holds the rows of the last file routed to it, or is untouched
      when no file was routed to it: a later file for the same table overwrites an earlier one. */
  lemma {:induction false} ImportAllLastWins(db: Db, files: seq<Upload>)
    ensures var out := ImportAll(db, files).0;
      && out.providers == (match LastRoutedTo(files, Providers)
                           case None => db.providers case Some(f) => Replace(f.frame.asProviders))
      && out.receivers == (match LastRoutedTo(files, Receivers)
                           case None => db.receivers case Some(f) => Replace(f.frame.asReceivers))
      && out.listings == (match LastRoutedTo(files, FoodListings)
                          case None => db.listings case Some(f) => Replace(f.frame.asListings))
      && out.claims == (match LastRoutedTo(files, Claims)
                        case None => db.claims case Some(f) => Replace(f.frame.asClaims))
    decreases |files|
  {
    if |files| > 0 {
      ImportAllLastWins(db, files[..|files| - 1]);
    }
  }

  /** Importing the same batch twice leaves the same database as importing it once. */
  lemma ImportAllIdempotent(db: Db, files: seq<Upload>)
    ensures ImportAll(ImportAll(db, files).0, files).0 == ImportAll(db, files).0
  {
    var once := ImportAll(db, files).0;
    ImportAllLastWins(db, files);
    ImportAllLastWins(once, files);
  }

  /** A batch import keeps the storage invariant. */
  lemma {:induction false} ImportAllKeepsValid(db: Db, files: seq<Upload>)
    requires DbValid(db)
    ensures DbValid(ImportAll(db, files).0)
    decreases |files|
  {
    if |files| > 0 {
      ImportAllKeepsValid(db, files[..|files| - 1]);
      ImportFileKeepsValid(ImportAll(db, files[..|files| - 1]).0, files[|files| - 1]);
    }
  }
}
