# Local Food Wastage Management System — a Dafny model of its data core

`app.py` is a Streamlit dashboard over a SQLite database with four tables: `providers`,
`receivers`, `food_listings` and `claims`. This project models the part of it that decides what
ends up in the tables and what the reports show:

- the start-up schema step: `CREATE TABLE IF NOT EXISTS` with a declared `INTEGER PRIMARY KEY`
  per table;
- the CSV import tab: filename routing on the lower-cased name, then a replace-import
  (`to_sql(..., if_exists="replace")`) that recreates the table without its primary key;
- the listing filter of the Food Listings tab (`WHERE 1=1 AND …`, one condition per non-empty
  widget);
- the single-row `INSERT`, `UPDATE` and `DELETE` statements of the three CRUD tabs, and the
  one-row `to_sql(..., if_exists="append")` behind the provider and receiver "Create/Replace";
- the integer-valued reports 1-10 and 13-16 of the Analysis tab.

A table is `Table(rows, keyed)`: its rows in the model's row order (the order they were
inserted in) and whether the declared primary key is still in force. The storage invariant `Valid` says that no two rows of a keyed table share a
key. Every form's handler is a step `Dashboard.Step` from one database to the next, or a
duplicate-key error. The page is re-executed from the top on every interaction, and the uploader
keeps its files, so a whole run is `Dashboard.Rerun`: the held files are imported again in a
transaction that commits on its own, then the submitted form's handler runs; a rejected form
leaves the imported database. Each report is a pure function of the table sequences. Its
contract states the promise of its SQL: one group per distinct key, each group's count or sum, the non-increasing order of the
totals, the window and exclusion conditions, and the ascending expiry order. For the one-table
counts (reports 1, 2, 7, 8) that contract already says each cell is the number of rows with its
key. Each report built on a join (3, 5, 9, 10, 13, 14) has a lemma that reads one cell back as a
reference count or sum over the stored rows.

Modules, one per file: `Outcomes` (the result types), `Seqs`, `Sorting` and `Grouping` (sequence
helpers, a rank-ordered sort, and `GROUP BY` with `COUNT(*)` or `SUM`), `Schema`, `Store`,
`Loader`, `ListingView`, `GroupReports` (reports 1, 2, 3, 4, 7, 8, 13), `JoinReports`
(reports 5, 9, 10, 14), `ListingReports` (reports 6, 15, 16) and `Dashboard`.

### Provider and receiver Create/Replace

The form is labelled "Create/Replace", but app.py:192-196 and 217-221 append one row with
`to_sql` into a table whose `Provider_ID` or `Receiver_ID` was declared `INTEGER PRIMARY KEY` at
start-up (app.py:31-38, 41-47). While that declaration is in force, SQLite rejects a duplicate id
exactly as it rejects the strict `INSERT` for listings and claims, and nothing is replaced.
Duplicates become possible only after a replace-import has recreated the table without the key.
In the model:
- all four create paths are `Store.Insert`;
- `Dashboard.CreateOrReplaceNeverReplaces` shows the form never replaces;
- `Dashboard.ImportThenDuplicateProvider` shows where a duplicate id can come from.

## Model

| member | source | states |
|---|---|---|
| Schema.Startup | app.py:29-70 | a table that already exists is kept exactly as it is; a missing table is created empty with its primary key declared; a catalog whose tables keep their keys unique yields a valid database |
| Schema.StartupIdempotent | app.py:29-70 | running the start-up block again on the database it produced changes nothing |
| Store.Insert | app.py:142-146 | the insert fails exactly when the table still declares its key and already holds a row with the new row's key, reporting that key; otherwise the row is appended after the old rows, in place, and the key declaration is unchanged |
| Store.InsertKeepsValid | app.py:142-146 | a successful insert keeps keys unique in a keyed table |
| Store.DuplicateInsertRejected | app.py:142-146 | while the key is declared, inserting a row whose key another stored row carries is a duplicate-key error and changes nothing |
| Store.CreateThenRead | app.py:243-246 | after a successful insert into a keyed table, selecting by the new key returns exactly the inserted row |
| Store.ImportDropsKeyGuard | app.py:192-196 | in a table recreated by an import, appending a row whose id is already present succeeds and leaves two rows with that id |
| Store.UpdateListing | app.py:159-163 | the rows with the target `Food_ID` get the new quantity, expiry and location with every other column kept; all other rows, the row count and the key declaration are unchanged |
| Store.UpdateClaim | app.py:249-251 | the rows with the target `Claim_ID` get the new status and timestamp with every other column kept; all other rows are unchanged |
| Store.UpdateMissingKeyIsNoOp | app.py:159-163 | an update whose id matches no row leaves the table unchanged and is not an error |
| Store.UpdatesKeepValid | app.py:159-163 | updates keep keys unique, and repeating an update changes nothing more |
| Store.DeleteByKey | app.py:168 | the result keeps the other rows in their order, loses exactly as many rows as carried the id, no longer holds the id, and keeps every row with another id |
| Store.DeleteMissingKeyIsNoOp | app.py:199 | deleting an id no row carries leaves the table unchanged |
| Store.DeleteThenRead | app.py:254 | after a delete, selecting by the deleted id returns nothing |
| Store.DeleteKeepsValid | app.py:224 | a delete keeps keys unique in a keyed table |
| Loader.LowerIdempotent | app.py:81 | lower-casing a name twice gives the same result as lower-casing it once |
| Loader.Route | app.py:83-100 | a name goes to `providers` exactly when its lower-cased form contains "providers"; to `receivers` exactly when it contains "receivers" but not "providers"; to `food_listings` exactly when it contains "food" and "list" and neither earlier word; to `claims` exactly when it contains "claim" and none of the earlier tests match; otherwise nowhere |
| Loader.RouteIgnoresCase | app.py:81 | two names that agree after lower-casing go to the same table |
| Loader.RouteSuggestedNames | app.py:76 | the four file names the tab suggests reach their own tables |
| Loader.RouteFirstMatchWins | app.py:83-100 | three example names: "Claims_Of_Food_List.CSV", which passes the food-listings and claims tests, goes to `food_listings`; "food_claims.csv", which lacks "list", goes to `claims`; "menu.csv" goes nowhere (the general rule is `Loader.Route`'s contract) |
| Loader.ImportFile | app.py:81-100 | the table the file routes to is replaced by the file's rows with no declared key and the notice gives that table and the row count; every other table is untouched; an unrecognised name changes nothing and yields a warning naming the file |
| Loader.ImportFileIdempotent | app.py:84 | importing the same file twice leaves the same database and notice as importing it once |
| Loader.ImportAllLastWins | app.py:79-100 | after a batch, each table holds the rows of the last file routed to it, or is untouched when no file went to it |
| Loader.ImportAllIdempotent | app.py:79-100 | importing the same batch twice gives the same database as importing it once |
| Loader.ImportAllKeepsValid | app.py:79-100 | a batch import keeps the storage invariant |
| ListingView.Conditions | app.py:109-119 | a condition on location, meal type or food type is added exactly when its widget is non-empty, with the widget's value, and no other condition is added |
| ListingView.Where | app.py:109-120 | the selected rows keep the table's row order; each row satisfying every condition is selected as often as it is stored and no other row is; their number is the number of matching rows |
| ListingView.ConditionsMeanMatches | app.py:111-119 | a listing passes the generated conditions exactly when it agrees with every non-empty widget |
| ListingView.WhereNothing | app.py:109 | with no widget set, `WHERE 1=1` returns every row in order |
| ListingView.WhereNarrowing | app.py:111-119 | a stricter set of conditions selects a subsequence of what a looser one selects |
| ListingView.ViewListings | app.py:109-120 | the listing view shows, in the table's row order, each row that matches every non-empty widget as often as it is stored and no other row; the number shown is the number of matching rows; all three widgets empty shows the whole table |
| ListingView.AddingFilterNeverGrows | app.py:111-119 | setting one more widget never shows a row that was not shown before |
| GroupReports.ProvidersPerCity | app.py:272 | one group per distinct provider city, holding the number of providers in that city, non-increasing totals, and totals adding up to the number of providers |
| GroupReports.ReceiversPerCity | app.py:278 | the same `GROUP BY City` count over receivers |
| GroupReports.CreateProviderCountsOnce | app.py:272 | appending one provider raises its city's count by one and leaves every other city's count as it was |
| GroupReports.ListingsPerProviderType | app.py:284-291 | one group per distinct provider type of the left join's rows, with its row count, in non-increasing order; at least one row per listing |
| Schema.RowsWithKey | app.py:288 | the rows a join condition `ON p.Provider_ID = fl.Provider_ID` matches to one outer row form a subsequence of the table in which every row carries the key, as many rows as carry it, and none exactly when no row does |
| Schema.RowsWithKeyMultiset | app.py:288 | the join matches each row carrying the key as often as it is stored, and no other row |
| GroupReports.TypesOfListing | app.py:285-288 | a listing whose provider is missing yields a single row under its own `Provider_Type`; otherwise it yields one row per provider with its `Provider_ID`, in order, each that provider's `Type` or, when that is NULL, the listing's own `Provider_Type` |
| GroupReports.ListingTypeResolved | app.py:285-288 | with unique provider ids, a listing whose provider exists is filed under that provider's `Type`, or under its own `Provider_Type` when the provider's is NULL |
| GroupReports.ListingsPerProviderTypeCounts | app.py:284-291 | with unique provider ids, each provider type's count is the number of listings that belong under it (their provider's `Type`, or their own `Provider_Type` when that is NULL or the provider is missing), and a type appears exactly when that number is positive |
| GroupReports.ProviderTypeCountsEachListingOnce | app.py:284-291 | with unique provider ids the join has exactly one row per listing, so the counts add up to the number of listings |
| GroupReports.InCity | app.py:297-299 | the providers of the city keep their order, each lies in the city, every provider in the city is kept, and their number is report 1's count for that city |
| GroupReports.InCityMultiset | app.py:297-299 | each provider of the city is kept as often as it is stored, and no other provider |
| GroupReports.ProviderContacts | app.py:297-299 | with an empty city nothing is queried; otherwise every row is the name, contact, type and address of a provider in that city, every provider in that city is shown, and there are as many rows as providers in that city |
| GroupReports.ProviderContactsMultiset | app.py:297-299 | each shown row appears exactly as often as providers of the city project to it, so two providers with the same name, contact, type and address give two equal rows; with an empty city nothing is shown |
| GroupReports.ListingsPerCity | app.py:321-326 | one group per distinct listing location, holding its number of listings, in non-increasing order, with totals adding up to the number of listings |
| GroupReports.CommonFoodTypes | app.py:332-337 | the same count per `Food_Type` |
| GroupReports.CreateListingCountsOnce | app.py:321-337 | appending one listing raises the count of its location by one in report 7 and of its food type by one in report 8, and leaves every other group as it was |
| GroupReports.ClaimsByMealType | app.py:388-394 | one group per meal type reached by the claims-listings join, holding its number of joined rows, in non-increasing order |
| GroupReports.ClaimsByMealTypeCounts | app.py:388-394 | with unique `Food_ID`s, each meal type's count is the number of claims whose listing has that meal type, and a meal type appears exactly when that number is positive |
| JoinReports.TopReceivers | app.py:303-309 | one group per distinct `(Receiver_ID, Name)` of the join, holding its number of joined rows, with non-increasing totals |
| JoinReports.ReceiverClaimKeysCount | app.py:303-309 | a `(Receiver_ID, Name)` pair is counted once per receiver row carrying it times the number of claims with that receiver id |
| JoinReports.TopReceiversCounts | app.py:303-309 | with unique receiver ids, each receiver's total is the number of its claims, and it is listed exactly when it has at least one |
| JoinReports.ClaimsPerListing | app.py:343-349 | one group per `(Food_ID, Food_Name)` summing the claim rows of the left join, with non-increasing totals; ties are ordered by ascending `Food_ID` |
| JoinReports.ClaimEntriesWeight | app.py:343-349 | a pair's total is the number of listing rows carrying it times the number of claims on that `Food_ID`; `COUNT(c.Claim_ID)` ignores the NULL row of an unclaimed listing |
| JoinReports.ClaimsPerListingCounts | app.py:343-349 | with unique `Food_ID`s, every listing is listed, including those without claims, and its total is the number of claims on it |
| JoinReports.ClaimsPerListingExample | app.py:343-349 | one "Bread" listing with one claim on it gives the single row `(1, "Bread")` with total 1 |
| JoinReports.TopProvidersByCompleted | app.py:353-361 | one group per `(Provider_ID, Name)` of the three-way join restricted to completed claims, with its row count and non-increasing totals |
| JoinReports.CompletedClaimKeysCount | app.py:353-361 | a provider pair is counted once per provider row carrying it times the completed claims on that provider's listings |
| JoinReports.TopProvidersCounts | app.py:353-361 | with unique provider ids, each provider's total is the number of completed claims on its listings, and it is listed exactly when there is one |
| JoinReports.QuantityPerProvider | app.py:400-406 | one group per `(Provider_ID, Name)` summing the quantities of the joined listings, with non-increasing sums |
| JoinReports.QuantityEntriesWeight | app.py:400-406 | a provider pair's sum is the number of provider rows carrying it times the summed quantity of that provider's listings |
| JoinReports.QuantityPerProviderTotals | app.py:400-406 | with unique provider ids, each provider's sum is the total quantity of its listings, and it is listed exactly when it has a listing |
| ListingReports.NonExpiredQuantity | app.py:313-318 | the metric is 0 when every listing has expired; it is never negative when quantities are not |
| ListingReports.QuantitySplits | app.py:313-318 | the non-expired quantity plus the expired quantity is the total quantity: each listing is counted on exactly one side of `today` |
| ListingReports.NonExpiredShrinksOverTime | app.py:316 | with non-negative quantities, the metric can only fall as `today` moves later |
| ListingReports.NearExpiry | app.py:410-416 | the rows are exactly the listings expiring between today and `days` days ahead, both ends included, each as often as it is stored, projected to the five shown columns, in ascending expiry order |
| ListingReports.NearExpiryExample | app.py:410-416 | two days ahead, a listing expiring tomorrow is shown and one expiring in three days is not |
| ListingReports.NotCompleted | app.py:420-426 | the rows are exactly the listings with no completed claim, each as often as it is stored, projected, in ascending expiry order, and never more rows than listings |
| ListingReports.NotCompletedOncePerListing | app.py:420-426 | with unique `Food_ID`s, every listing appears at most once, however many non-completed claims it has |
| ListingReports.CompletedClaimHidesListing | app.py:423-424 | once a completed claim on a listing is recorded, the report no longer shows that listing |
| ListingReports.NotCompletedExample | app.py:420-426 | a listing whose only claim is completed leaves the report empty |
| Dashboard.Step | app.py:140-255 | a form fails exactly when it inserts a key the still-keyed target table already holds; a successful form changes only the table it is about (its effect on that table is stated per form by the next five rows) |
| Dashboard.CreateAppends | app.py:142-146 | a successful listing or claim create appends its row after the old rows, in place, and keeps the key declaration (claims: app.py:243-246) |
| Dashboard.EditListingEffect | app.py:159-163 | the listing edit sets quantity, expiry and location on every row with the id, keeps their other columns, and leaves every other row where it was |
| Dashboard.UpdateClaimStatusEffect | app.py:249-251 | the claim update sets status and timestamp on every row with the id and leaves everything else as it was |
| Dashboard.DeleteEffect | app.py:168 | each delete form removes from its own table exactly the rows carrying its id, keeping the others in order (providers: app.py:199, receivers: app.py:224, claims: app.py:254) |
| Dashboard.StepKeepsValid | app.py:140-255 | every successful form, including a CSV import, keeps the storage invariant of all four tables |
| Dashboard.CreateOrReplaceNeverReplaces | app.py:189-197 | the provider "Create/Replace" never replaces: when it succeeds the old rows stay in place with the new row appended, and while the key is declared an existing id makes it fail |
| Dashboard.CreateOrReplaceReceiverNeverReplaces | app.py:214-222 | the receiver form behaves the same way |
| Dashboard.ImportThenDuplicateProvider | app.py:189-197 | after a batch that replaced `providers`, creating a provider whose id the imported file holds succeeds and leaves duplicate ids |
| Dashboard.Rerun | app.py:77-101 | a run re-imports the files the uploader holds, then reports an error exactly when the submitted form inserts a key the still-keyed table already holds after that import; a rejected run ends with the imported database, an accepted one with the form's step applied to it; with no held files it is the form's step alone, and a rejected form changes nothing |
| Dashboard.NextRunRestoresImported | app.py:77-101 | while the uploader holds a file for a table, the next run's import puts back exactly that file's rows, whether the form in between succeeded or was rejected |
| Dashboard.EditsNeverFail | app.py:157-169 | updates, deletes and CSV imports never fail, whatever the id |

## Left out

- The user interface is not modelled: Streamlit widgets, tables, charts, metrics, toasts and
  success messages. The forms' inputs are the fields of `Dashboard.Action`.
- The engine setup and secrets lookup (app.py:16-27) are left out because they only choose where
  the database lives.
- Transactions are modelled only by their outcome. A form's statement either applies or leaves
  the database as the form found it, and a run's CSV batch (app.py:79) commits before the form
  runs (`Dashboard.Rerun`). The batch is modelled as applying its files in order. A failure part-way, such as a CSV that cannot be read, would roll the whole
  batch back; that failure is not modelled.
- `pd.read_csv` and the `pd.to_datetime` conversions of `Expiry_Date` and `Timestamp` are not
  modelled. An upload carries its rows already read as each table's row type, and dates are day
  numbers.
- Malformed dates and columns missing from a CSV are left out, for the same reason.
- `DATE('now')` and the form's default timestamp are clocks. `today` is a parameter, and a
  timestamp is opaque text that no report compares.
- Reports 11 and 12 are left out because they compute floating-point percentages and averages
  with `ROUND`.
- Lower-casing covers ASCII letters only. Python's `str.lower` also folds non-ASCII letters.
- Only the provider `Type` column is nullable in the model, because report 3 falls back on it
  through `COALESCE`. A NULL in any other text column, and a NULL `Claim_ID`, are not modelled.
- ProviderContacts: the `ORDER BY Name` of report 4 is not stated. The contract gives the shown
  rows but not their order, because it would need SQLite's text collation.
- The tie order of `ORDER BY <total> DESC` and `ORDER BY Expiry_Date` is not stated. SQLite leaves
  it unspecified, so contracts state the order of the totals and a permutation, not one
  particular arrangement. Report 9's second sort key, `Food_ID`, is stated.
- Row order: the model keeps rows in the order they were inserted, and `UPDATE` and `DELETE`
  keep the remaining rows in that order. SQLite scans a table whose key is `INTEGER PRIMARY KEY`
  in ascending key order, because the key is the rowid. So for a keyed table, an unordered
  `SELECT` (the listing view, the rows a join matches) returns the rows the model states in key order
  rather than the model's order. The contracts state which rows come back and how often; the
  order they state is SQLite's only for tables recreated by an import.
- The "Days Ahead" widget bounds (1 to 30, app.py:410) are not imposed. `NearExpiry` accepts
  any `days`, as the query does.
- The `min_value=1` bounds of the number inputs are not imposed. The statements accept any integer.
- `Dashboard.Step` does not return the notices of a CSV import. `Loader.ImportAll` returns them,
  one per file.
- Integer widths are not modelled, because SQLite's 64-bit integers and Python's unbounded ints
  do not overflow at the sizes this data has.
