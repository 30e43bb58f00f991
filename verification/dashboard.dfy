/** The dashboard's forms (app.py lines 77-255) as one step function over the database.
    Every submitted form runs its statements in a transaction of its own, so a statement that
    fails leaves the database as the form found it and the page reports the error. A run of the
    page first re-imports the uploaded files in a transaction that commits on its own. */
module Dashboard {
  import opened Outcomes
  import opened Seqs
  import opened Schema
  import Store
  import Loader

  /** One submitted form. */
  datatype Action =
    | ImportCsv(files: seq<Loader.Upload>)
    | CreateListing(listing: Listing)
    | EditListing(foodId: int, quantity: int, expiry: Day, location: string)
    | RemoveListing(foodId: int)
    | CreateOrReplaceProvider(provider: Provider)
    | DeleteProvider(providerId: int)
    | CreateOrReplaceReceiver(receiver: Receiver)
    | DeleteReceiver(receiverId: int)
    | CreateClaim(claim: Claim)
    | UpdateClaimStatus(claimId: int, status: string, timestamp: string)
    | DeleteClaim(claimId: int)

  /** The action inserts a row whose key the still-keyed target table already holds. */
  predicate Rejected(db: Db, a: Action) {
    match a
    case CreateListing(l) => db.listings.keyed && HasKey(db.listings.rows, ListingKey, l.foodId)
    case CreateOrReplaceProvider(p) => db.providers.keyed && HasKey(db.providers.rows, ProviderKey, p.providerId)
    case CreateOrReplaceReceiver(r) => db.receivers.keyed && HasKey(db.receivers.rows, ReceiverKey, r.receiverId)
    case CreateClaim(c) => db.claims.keyed && HasKey(db.claims.rows, ClaimKey, c.claimId)
    case _ => false
  }

  /** Submitting one form. Only an insert can fail, and only on a duplicate key; a statement
      touches the table its form is about and no other. */
  function Step(db: Db, a: Action): (r: Result<Db>)
    ensures r.Err? <==> Rejected(db, a)
    ensures r.Ok? && !(a.ImportCsv? || a.CreateOrReplaceProvider? || a.DeleteProvider?)
            ==> r.value.providers == db.providers
    ensures r.Ok? && !(a.ImportCsv? || a.CreateOrReplaceReceiver? || a.DeleteReceiver?)
            ==> r.value.receivers == db.receivers
    ensures r.Ok? && !(a.ImportCsv? || a.CreateListing? || a.EditListing? || a.RemoveListing?)
            ==> r.value.listings == db.listings
    ensures r.Ok? && !(a.ImportCsv? || a.CreateClaim? || a.UpdateClaimStatus? || a.DeleteClaim?)
            ==> r.value.claims == db.claims
  {
    match a
    case ImportCsv(files) =>
      Ok(Loader.ImportAll(db, files).0)
    case CreateListing(l) =>
      (match Store.Insert(db.listings, l, ListingKey)
       case Ok(t) => Ok(db.(listings := t))
       case Err(e) => Err(e))
    case EditListing(id, quantity, expiry, location) =>
      Ok(db.(listings := Store.UpdateListing(db.listings, id, quantity, expiry, location)))
    case RemoveListing(id) =>
      Ok(db.(listings := Store.DeleteByKey(db.listings, ListingKey, id)))
    case CreateOrReplaceProvider(p) =>
      (match Store.Insert(db.providers, p, ProviderKey)
       case Ok(t) => Ok(db.(providers := t))
       case Err(e) => Err(e))
    case DeleteProvider(id) =>
      Ok(db.(providers := Store.DeleteByKey(db.providers, ProviderKey, id)))
    case CreateOrReplaceReceiver(rc) =>
      (match Store.Insert(db.receivers, rc, ReceiverKey)
       case Ok(t) => Ok(db.(receivers := t))
       case Err(e) => Err(e))
    case DeleteReceiver(id) =>
      Ok(db.(receivers := Store.DeleteByKey(db.receivers, ReceiverKey, id)))
    case CreateClaim(c) =>
      (match Store.Insert(db.claims, c, ClaimKey)
       case Ok(t) => Ok(db.(claims := t))
       case Err(e) => Err(e))
    case UpdateClaimStatus(id, status, timestamp) =>
      Ok(db.(claims := Store.UpdateClaim(db.claims, id, status, timestamp)))
    case DeleteClaim(id) =>
      Ok(db.(claims := Store.DeleteByKey(db.claims, ClaimKey, id)))
  }

  /** Every successful step keeps the storage invariant. */
  lemma StepKeepsValid(db: Db, a: Action)
    requires DbValid(db)
    requires Step(db, a).Ok?
    ensures DbValid(Step(db, a).value)
  {
    match a
    case ImportCsv(files) => Loader.ImportAllKeepsValid(db, files);
    case CreateListing(l) => Store.InsertKeepsValid(db.listings, l, ListingKey);
    case EditListing(id, quantity, expiry, location) =>
      Store.UpdatesKeepValid(db.listings, db.claims, id, quantity, expiry, location, "", "");
    case RemoveListing(id) => Store.DeleteKeepsValid(db.listings, ListingKey, id);
    case CreateOrReplaceProvider(p) => Store.InsertKeepsValid(db.providers, p, ProviderKey);
    case DeleteProvider(id) => Store.DeleteKeepsValid(db.providers, ProviderKey, id);
    case CreateOrReplaceReceiver(rc) => Store.InsertKeepsValid(db.receivers, rc, ReceiverKey);
    case DeleteReceiver(id) => Store.DeleteKeepsValid(db.receivers, ReceiverKey, id);
    case CreateClaim(c) => Store.InsertKeepsValid(db.claims, c, ClaimKey);
    case UpdateClaimStatus(id, status, timestamp) =>
      Store.UpdatesKeepValid(db.listings, db.claims, id, 0, 0, "", status, timestamp);
    case DeleteClaim(id) => Store.DeleteKeepsValid(db.claims, ClaimKey, id);
  }

  /** The provider "Create/Replace" never replaces: when it succeeds the table is the old rows,
      in place, followed by the new one; while the key is declared, an existing id makes it fail
      and the old row stays. */
  lemma CreateOrReplaceNeverReplaces(db: Db, p: Provider)
    ensures var r := Step(db, CreateOrReplaceProvider(p));
            r.Ok? ==> r.value.providers.rows == db.providers.rows + [p]
    ensures db.providers.keyed && HasKey(db.providers.rows, ProviderKey, p.providerId)
            ==> Step(db, CreateOrReplaceProvider(p)) == Err(DuplicateKey(p.providerId))
  {
  }

  /** The receiver form behaves the same way. */
  lemma CreateOrReplaceReceiverNeverReplaces(db: Db, rc: Receiver)
    ensures var r := Step(db, CreateOrReplaceReceiver(rc));
            r.Ok? ==> r.value.receivers.rows == db.receivers.rows + [rc]
    ensures db.receivers.keyed && HasKey(db.receivers.rows, ReceiverKey, rc.receiverId)
            ==> Step(db, CreateOrReplaceReceiver(rc)) == Err(DuplicateKey(rc.receiverId))
  {
  }

  /** After a batch that replaced `providers`, creating a provider whose id the imported file
      already holds succeeds, and the table then holds two rows with that id. */
  lemma ImportThenDuplicateProvider(db: Db, files: seq<Loader.Upload>, p: Provider)
    requires Loader.LastRoutedTo(files, Loader.Providers).Some?
    requires HasKey(Loader.LastRoutedTo(files, Loader.Providers).value.frame.asProviders, ProviderKey, p.providerId)
    ensures Step(db, ImportCsv(files)).Ok?
    ensures var imported := Step(db, ImportCsv(files)).value;
            var r := Step(imported, CreateOrReplaceProvider(p));
            r.Ok? && !UniqueKeys(r.value.providers.rows, ProviderKey)
  {
    Loader.ImportAllLastWins(db, files);
    var rows := Loader.LastRoutedTo(files, Loader.Providers).value.frame.asProviders;
    Store.ImportDropsKeyGuard(rows, p, ProviderKey);
  }

  /** One run of the script. The page is re-executed from the top on every interaction and the
      uploader keeps its files between runs, so the files it still holds are imported again
      (app.py lines 78-100) before the handler of the submitted form runs. The import's
      transaction (app.py line 79) has committed before the form's statement runs, so a rejected
      form rolls back only its own statement: the run then ends with the imported database and
      the error. */
  function Rerun(db: Db, held: seq<Loader.Upload>, a: Action): (r: (Db, Option<DbError>))
    ensures var imported := Loader.ImportAll(db, held).0;
      && (r.1.Some? <==> Rejected(imported, a))
      && (r.1.Some? ==> r.0 == imported)
      && (r.1.None? ==> Step(imported, a) == Ok(r.0))
    ensures held == [] ==> r.0 == (if Step(db, a).Ok? then Step(db, a).value else db)
  {
    var imported := Loader.ImportAll(db, held).0;
    match Step(imported, a)
    case Ok(next) => (next, None)
    case Err(e) => (imported, Some(e))
  }

  /** While the uploader holds a file for a table, no form's effect on that table outlives the
      next run: that run's import puts back exactly the file's rows, whatever the form did and
      whether or not it was rejected. */
  lemma NextRunRestoresImported(db: Db, held: seq<Loader.Upload>, a: Action)
    ensures var next := Loader.ImportAll(Rerun(db, held, a).0, held).0;
      && (Loader.LastRoutedTo(held, Loader.Providers).Some? ==>
            next.providers == Loader.Replace(Loader.LastRoutedTo(held, Loader.Providers).value.frame.asProviders))
      && (Loader.LastRoutedTo(held, Loader.Receivers).Some? ==>
            next.receivers == Loader.Replace(Loader.LastRoutedTo(held, Loader.Receivers).value.frame.asReceivers))
      && (Loader.LastRoutedTo(held, Loader.FoodListings).Some? ==>
            next.listings == Loader.Replace(Loader.LastRoutedTo(held, Loader.FoodListings).value.frame.asListings))
      && (Loader.LastRoutedTo(held, Loader.Claims).Some? ==>
            next.claims == Loader.Replace(Loader.LastRoutedTo(held, Loader.Claims).value.frame.asClaims))
  {
    Loader.ImportAllLastWins(Rerun(db, held, a).0, held);
  }

  /** A successful listing or claim create appends its row after the old rows, in place, and
      keeps the key declaration. */
  lemma CreateAppends(db: Db, a: Action)
    requires a.CreateListing? || a.CreateClaim?
    requires Step(db, a).Ok?
    ensures a.CreateListing? ==> Step(db, a).value.listings == Table(db.listings.rows + [a.listing], db.listings.keyed)
    ensures a.CreateClaim? ==> Step(db, a).value.claims == Table(db.claims.rows + [a.claim], db.claims.keyed)
  {
  }

  /** The listing edit sets quantity, expiry and location on every row with the id, keeps their
      other columns, and keeps every other row where it was. */
  lemma EditListingEffect(db: Db, id: int, quantity: int, expiry: Day, location: string)
    ensures var t := Step(db, EditListing(id, quantity, expiry, location)).value.listings;
      && t.keyed == db.listings.keyed && |t.rows| == |db.listings.rows|
      && forall i :: 0 <= i < |t.rows| ==>
           t.rows[i] == if db.listings.rows[i].foodId == id
                        then db.listings.rows[i].(quantity := quantity, expiry := expiry, location := location)
                        else db.listings.rows[i]
  {
  }

  /** The claim status update sets status and timestamp on every row with the id, keeps their
      other columns, and keeps every other row where it was. */
  lemma UpdateClaimStatusEffect(db: Db, id: int, status: string, timestamp: string)
    ensures var t := Step(db, UpdateClaimStatus(id, status, timestamp)).value.claims;
      && t.keyed == db.claims.keyed && |t.rows| == |db.claims.rows|
      && forall i :: 0 <= i < |t.rows| ==>
           t.rows[i] == if db.claims.rows[i].claimId == id
                        then db.claims.rows[i].(status := status, timestamp := timestamp)
                        else db.claims.rows[i]
  {
  }

  /** `after` is `before` with exactly the rows carrying `id` removed: the others stay in order,
      none carries `id`, and the key declaration is kept. */
  ghost predicate Removed<T>(before: Table<T>, after: Table<T>, key: T -> int, id: int) {
    && after.keyed == before.keyed
    && IsSubseq(after.rows, before.rows)
    && |after.rows| == |before.rows| - KeyCount(before.rows, key, id)
    && !HasKey(after.rows, key, id)
  }

  /** Each delete form removes exactly the rows carrying its id from its own table. */
  lemma DeleteEffect(db: Db, a: Action)
    requires a.RemoveListing? || a.DeleteProvider? || a.DeleteReceiver? || a.DeleteClaim?
    ensures a.RemoveListing? ==> Removed(db.listings, Step(db, a).value.listings, ListingKey, a.foodId)
    ensures a.DeleteProvider? ==> Removed(db.providers, Step(db, a).value.providers, ProviderKey, a.providerId)
    ensures a.DeleteReceiver? ==> Removed(db.receivers, Step(db, a).value.receivers, ReceiverKey, a.receiverId)
    ensures a.DeleteClaim? ==> Removed(db.claims, Step(db, a).value.claims, ClaimKey, a.claimId)
  {
  }

  /** Updates and deletes never fail, whatever the key. */
  lemma EditsNeverFail(db: Db, a: Action)
    requires a.EditListing? || a.RemoveListing? || a.DeleteProvider? || a.DeleteReceiver?
             || a.UpdateClaimStatus? || a.DeleteClaim? || a.ImportCsv?
    ensures Step(db, a).Ok?
  {
  }
}
