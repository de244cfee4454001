/** The listing handlers of the API: how the path parameter, the token
    user id, the decoded body and the listing service's answers become a
    response. `CreateListing`, `UpdateListing` and `DeleteListing` write a
    401 on a missing token or an ownership mismatch and then carry on; they
    are modelled as written, next to guarded versions that stop there.
    Each handler is assembled from the steps it takes, in order. */
module ListingHandlers {
  import opened Wrappers
  import opened GoStd
  import opened Geocode
  import opened Schema
  import opened Http
  import LS = ListingService

  /** The listing with that id belongs to user `u`. */
  predicate OwnedBy(db: Db, id: int, u: int) {
    LS.GetByID(db, id).Success? && LS.GetByID(db, id).value.userId == u
  }

  /** The 401 written, without returning, when the token carries no user
      id; the handler goes on to the next step. */
  function NoTokenNotice(token: Option<int>): (r: seq<Event>)
    ensures token.None? <==> EffectiveStatus(r) == 401
  {
    if token.None? then [HttpError(401, "User ID not found in token")] else []
  }

  /** `GetListingByID`. A missing row is a service error and so a 500; the
      404 branch is taken only for a row whose id is 0. */
  function GetListingByID(idParam: string, db: Db): (o: Outcome)
    ensures o.db == db
    ensures Atoi(idParam).None? ==> o.events == [HttpError(400, "Invalid listing ID")]
    ensures Atoi(idParam).Some? ==> Called(o.events, ListingGet(Atoi(idParam).value))
    ensures Atoi(idParam).Some? && db.fault.Some? ==>
      o.events == [Call(ListingGet(Atoi(idParam).value)), HttpError(500, "could not retrieve listing: " + db.fault.value)]
    ensures Atoi(idParam).Some? && db.fault.None? && (forall l :: l in db.listings ==> l.listingId != Atoi(idParam).value) ==>
      o.events == [Call(ListingGet(Atoi(idParam).value)), HttpError(500, "listing not found")]
    ensures EffectiveStatus(o.events) == 404 <==>
      Atoi(idParam) == Some(0) && db.fault.None? && exists l :: l in db.listings && l.listingId == 0
    ensures EffectiveStatus(o.events) == 200 <==>
      Atoi(idParam).Some? && Atoi(idParam).value != 0 && LS.GetByID(db, Atoi(idParam).value).Success?
    ensures EffectiveStatus(o.events) == 200 ==>
      o.events == [Call(ListingGet(Atoi(idParam).value)), Write(ListingJson(LS.GetByID(db, Atoi(idParam).value).value))]
  {
    match Atoi(idParam)
    case None => Outcome([HttpError(400, "Invalid listing ID")], db)
    case Some(id) =>
      var answer :=
        match LS.GetByID(db, id)
        case Failure(err) => [HttpError(500, err)]
        case Success(l) => if l.listingId == 0 then [HttpError(404, "Listing not found")] else [Write(ListingJson(l))];
      Outcome(Invoke(ListingGet(id), answer), db)
  }

  // ---------------------------------------------------------------------
  // CreateListing

  /** The insert and its answer: 500 with the service error, or 201 and
      the stored row. */
  function RunCreate(l: Listing, db: Db, geocode: Point -> Answer, defaults: LS.InsertDefaults): (o: Outcome)
    ensures o.db == LS.Create(db, l, geocode, defaults).db
    ensures Called(o.events, ListingCreate(l))
    ensures EffectiveStatus(o.events) == 201 <==> LS.Create(db, l, geocode, defaults).result.Success?
  {
    var c := LS.Create(db, l, geocode, defaults);
    var answer :=
      match c.result
      case Failure(err) => [HttpError(500, err)]
      case Success(created) => [WriteHeader(201), Write(ListingJson(created))];
    Outcome(Invoke(ListingCreate(l), answer), c.db)
  }

  /** `CreateListing` as written: the 401 for a missing token and the 401
      for a body naming another user are both followed by the insert. */
  function CreateListing(token: Option<int>, body: Decoded<Listing>, db: Db,
                         geocode: Point -> Answer, defaults: LS.InsertDefaults): (o: Outcome)
    ensures body.Malformed? ==> o.db == db && forall op :: !Called(o.events, op)
    ensures body.Decoded? ==> Called(o.events, ListingCreate(body.value))
    ensures body.Decoded? ==> o.db == LS.Create(db, body.value, geocode, defaults).db
    ensures EffectiveStatus(o.events) == 201 <==>
      token.Some? && body.Decoded? && body.value.userId == token.value
      && LS.Create(db, body.value, geocode, defaults).result.Success?
  {
    var rest :=
      match body
      case Malformed(reason) => Outcome([HttpError(400, reason)], db)
      case Decoded(l) =>
        var run := RunCreate(l, db, geocode, defaults);
        Outcome(Notice(TokenOrZero(token) != l.userId, 401, "Cannot Create Listing For Another User", run.events), run.db);
    Outcome(Notice(token.None?, 401, "User ID not found in token", rest.events), rest.db)
  }

  /** As written, an authenticated user can create a listing owned by
      someone else: the client sees 401, yet the row is stored under the
      body's user id. */
  lemma CreateListingForAnotherUser(u: int, body: Listing, db: Db, geocode: Point -> Answer, defaults: LS.InsertDefaults)
    requires body.userId != u && db.fault.None? && geocode(body.location).err.None?
    ensures var o := CreateListing(Some(u), Decoded(body), db, geocode, defaults);
      && EffectiveStatus(o.events) == 401
      && |o.db.listings| == |db.listings| + 1
      && o.db.listings[|db.listings|].userId == body.userId != u
  {
  }

  /** `CreateListing` with a `return` after each 401: rows are only ever
      added for the token's user. */
  function CreateListingGuarded(token: Option<int>, body: Decoded<Listing>, db: Db,
                                geocode: Point -> Answer, defaults: LS.InsertDefaults): (o: Outcome)
    ensures o.db != db ==> token.Some? && body.Decoded? && body.value.userId == token.value
    ensures forall l :: l in o.db.listings && l !in db.listings ==> token.Some? && l.userId == token.value
    ensures forall l :: Called(o.events, ListingCreate(l)) ==> token.Some? && l.userId == token.value
    ensures EffectiveStatus(o.events) == 201 <==>
      token.Some? && body.Decoded? && body.value.userId == token.value
      && LS.Create(db, body.value, geocode, defaults).result.Success?
  {
    if token.None? then Outcome([HttpError(401, "User ID not found in token")], db)
    else
      match body
      case Malformed(reason) => Outcome([HttpError(400, reason)], db)
      case Decoded(l) =>
        if token.value != l.userId then Outcome([HttpError(401, "Cannot Create Listing For Another User")], db)
        else RunCreate(l, db, geocode, defaults)
  }

  // ---------------------------------------------------------------------
  // UpdateListing

  /** Decoding the body and running the update: 400 for a body that does
      not decode, 500 with the service error, or 200 with a text body. */
  function RunUpdate(id: int, body: Decoded<Listing>, db: Db, geocode: Point -> Answer): (o: Outcome)
    ensures body.Malformed? ==> o == Outcome([HttpError(400, "Invalid input")], db)
    ensures body.Decoded? ==> o.db == LS.Update(db, body.value, id, geocode).db
    ensures body.Decoded? ==> Called(o.events, ListingUpdate(id, body.value))
    ensures forall i, l :: Called(o.events, ListingUpdate(i, l)) ==> i == id && body == Decoded(l)
    ensures EffectiveStatus(o.events) == 200 <==> body.Decoded? && LS.Update(db, body.value, id, geocode).err.None?
  {
    match body
    case Malformed(_) => Outcome([HttpError(400, "Invalid input")], db)
    case Decoded(l) =>
      var m := LS.Update(db, l, id, geocode);
      var answer := if m.err.Some? then [HttpError(500, m.err.value)]
                    else [WriteHeader(200), Write(Text("Listing updated successfully"))];
      Outcome(Invoke(ListingUpdate(id, l), answer), m.db)
  }

  /** `UpdateListing` as written. The path id is parsed and the row fetched
      before the ownership test; a mismatch writes 401 and the update still
      runs. */
  function UpdateListing(token: Option<int>, idParam: string, body: Decoded<Listing>, db: Db,
                         geocode: Point -> Answer): (o: Outcome)
    ensures Atoi(idParam).None? ==> o == Outcome(NoTokenNotice(token) + [HttpError(400, "Invalid listing ID")], db)
    ensures Atoi(idParam).Some? && LS.GetByID(db, Atoi(idParam).value).Failure? ==>
      o == Outcome(NoTokenNotice(token) + [Call(ListingGet(Atoi(idParam).value)), HttpError(400, "Invalid listing ID")], db)
    ensures o.db == db || (Atoi(idParam).Some? && body.Decoded?
                           && o.db == LS.Update(db, body.value, Atoi(idParam).value, geocode).db)
    ensures Atoi(idParam).Some? && LS.GetByID(db, Atoi(idParam).value).Success? && body.Decoded? ==>
      Called(o.events, ListingUpdate(Atoi(idParam).value, body.value))
    ensures EffectiveStatus(o.events) == 200 <==>
      token.Some? && Atoi(idParam).Some? && OwnedBy(db, Atoi(idParam).value, token.value) && body.Decoded?
      && LS.Update(db, body.value, Atoi(idParam).value, geocode).err.None?
  {
    var rest :=
      match Atoi(idParam)
      case None => Outcome([HttpError(400, "Invalid listing ID")], db)
      case Some(id) =>
        match LS.GetByID(db, id)
        case Failure(_) => Outcome(Invoke(ListingGet(id), [HttpError(400, "Invalid listing ID")]), db)
        case Success(stored) =>
          var run := RunUpdate(id, body, db, geocode);
          var checked := Notice(stored.userId != TokenOrZero(token), 401, "Cannot Delete Listing For Another User", run.events);
          Outcome(Invoke(ListingGet(id), checked), run.db);
    Outcome(Notice(token.None?, 401, "User ID not found in token", rest.events), rest.db)
  }

  /** As written, a user who does not own a listing can rewrite it: the
      client sees 401, yet the stored row now carries the request's title. */
  lemma UpdateListingOwnershipBypass(u: int, idParam: string, body: Listing, db: Db, geocode: Point -> Answer)
    requires Atoi(idParam).Some? && db.fault.None? && geocode(body.location).err.None?
    requires exists l :: l in db.listings && l.listingId == Atoi(idParam).value && l.userId != u
    requires UniqueListingIds(db.listings)
    ensures var o := UpdateListing(Some(u), idParam, Decoded(body), db, geocode);
      && EffectiveStatus(o.events) == 401
      && exists i :: 0 <= i < |o.db.listings| && o.db.listings[i].listingId == Atoi(idParam).value
                     && o.db.listings[i].userId != u && o.db.listings[i].title == body.title
  {
    var id := Atoi(idParam).value;
    var l :| l in db.listings && l.listingId == id && l.userId != u;
    var i :| 0 <= i < |db.listings| && db.listings[i] == l;
    GetByIDFindsTheRow(db, l);
    var o := UpdateListing(Some(u), idParam, Decoded(body), db, geocode);
    assert o.db == LS.Update(db, body, id, geocode).db;
    assert o.db.listings[i].title == body.title;
  }

  /** `UpdateListing` with a `return` after each 401: only the owner's
      request reaches the update. */
  function UpdateListingGuarded(token: Option<int>, idParam: string, body: Decoded<Listing>, db: Db,
                                geocode: Point -> Answer): (o: Outcome)
    ensures o.db != db ==> token.Some? && Atoi(idParam).Some? && OwnedBy(db, Atoi(idParam).value, token.value)
    ensures forall i, l :: Called(o.events, ListingUpdate(i, l)) ==> token.Some? && OwnedBy(db, i, token.value)
    ensures EffectiveStatus(o.events) == 200 <==>
      token.Some? && Atoi(idParam).Some? && OwnedBy(db, Atoi(idParam).value, token.value) && body.Decoded?
      && LS.Update(db, body.value, Atoi(idParam).value, geocode).err.None?
  {
    if token.None? then Outcome([HttpError(401, "User ID not found in token")], db)
    else
      match Atoi(idParam)
      case None => Outcome([HttpError(400, "Invalid listing ID")], db)
      case Some(id) =>
        match LS.GetByID(db, id)
        case Failure(_) => Outcome(Invoke(ListingGet(id), [HttpError(400, "Invalid listing ID")]), db)
        case Success(stored) =>
          if stored.userId != token.value then
            Outcome(Invoke(ListingGet(id), [HttpError(401, "Cannot Delete Listing For Another User")]), db)
          else
            var run := RunUpdate(id, body, db, geocode);
            Outcome(Invoke(ListingGet(id), run.events), run.db)
  }

  // ---------------------------------------------------------------------
  // DeleteListing

  /** The delete and its answer: 500 with a fixed text, or 204. */
  function RunDelete(id: int, db: Db): (o: Outcome)
    ensures o.db == LS.Delete(db, id).db
    ensures Called(o.events, ListingDelete(id))
    ensures forall i :: Called(o.events, ListingDelete(i)) ==> i == id
    ensures EffectiveStatus(o.events) == 204 <==> LS.Delete(db, id).err.None?
  {
    var m := LS.Delete(db, id);
    var answer := if m.err.Some? then [HttpError(500, "Failed to delete listing")] else [WriteHeader(204)];
    Outcome(Invoke(ListingDelete(id), answer), m.db)
  }

  /** `DeleteListing` as written: the id is parsed before the token is
      looked at, and neither 401 stops the delete. */
  function DeleteListing(token: Option<int>, idParam: string, db: Db): (o: Outcome)
    ensures Atoi(idParam).None? ==> o == Outcome([HttpError(400, "Invalid listing ID")], db)
    ensures Atoi(idParam).Some? && LS.GetByID(db, Atoi(idParam).value).Failure? ==>
      o == Outcome(NoTokenNotice(token) + [Call(ListingGet(Atoi(idParam).value)), HttpError(400, "Invalid listing ID")], db)
    ensures o.db == db || (Atoi(idParam).Some? && o.db == LS.Delete(db, Atoi(idParam).value).db)
    ensures Atoi(idParam).Some? && LS.GetByID(db, Atoi(idParam).value).Success? ==>
      Called(o.events, ListingDelete(Atoi(idParam).value))
    ensures EffectiveStatus(o.events) == 204 <==>
      token.Some? && Atoi(idParam).Some? && OwnedBy(db, Atoi(idParam).value, token.value)
  {
    match Atoi(idParam)
    case None => Outcome([HttpError(400, "Invalid listing ID")], db)
    case Some(id) =>
      var rest :=
        match LS.GetByID(db, id)
        case Failure(_) => Outcome(Invoke(ListingGet(id), [HttpError(400, "Invalid listing ID")]), db)
        case Success(stored) =>
          var run := RunDelete(id, db);
          var checked := Notice(stored.userId != TokenOrZero(token), 401, "Cannot Delete Listing For Another User", run.events);
          Outcome(Invoke(ListingGet(id), checked), run.db);
      Outcome(Notice(token.None?, 401, "User ID not found in token", rest.events), rest.db)
  }

  /** As written, a user who does not own a listing can delete it: the
      client sees 401, yet the row is gone. */
  lemma DeleteListingOwnershipBypass(u: int, idParam: string, db: Db)
    requires Atoi(idParam).Some? && db.fault.None? && UniqueListingIds(db.listings)
    requires exists l :: l in db.listings && l.listingId == Atoi(idParam).value && l.userId != u
    ensures var o := DeleteListing(Some(u), idParam, db);
      && EffectiveStatus(o.events) == 401
      && forall l :: l in o.db.listings ==> l.listingId != Atoi(idParam).value
  {
    var id := Atoi(idParam).value;
    var o := DeleteListing(Some(u), idParam, db);
    var l :| l in db.listings && l.listingId == id && l.userId != u;
    GetByIDFindsTheRow(db, l);
    assert o.db == LS.Delete(db, id).db;
    DeleteLeavesNoRow(db, id);
  }

  /** With unique ids, `GetByID` finds the one row that carries the id. */
  lemma GetByIDFindsTheRow(db: Db, l: Listing)
    requires db.fault.None? && UniqueListingIds(db.listings) && l in db.listings
    ensures LS.GetByID(db, l.listingId) == Success(l)
  {
    var r := LS.GetByID(db, l.listingId).value;
    var i :| 0 <= i < |db.listings| && db.listings[i] == l;
    var k :| 0 <= k < |db.listings| && db.listings[k] == r;
    assert i == k;
  }

  /** After a successful delete no row carries the id. */
  lemma DeleteLeavesNoRow(db: Db, id: int)
    requires db.fault.None? && exists l :: l in db.listings && l.listingId == id
    ensures forall l :: l in LS.Delete(db, id).db.listings ==> l.listingId != id
  {
    var after := LS.Delete(db, id).db.listings;
    forall l | l in after ensures l.listingId != id {
      assert multiset(after)[l] > 0;
    }
  }

  /** `DeleteListing` with a `return` after each 401: only the owner's
      request reaches the delete. */
  function DeleteListingGuarded(token: Option<int>, idParam: string, db: Db): (o: Outcome)
    ensures o.db != db ==> token.Some? && Atoi(idParam).Some? && OwnedBy(db, Atoi(idParam).value, token.value)
    ensures forall i :: Called(o.events, ListingDelete(i)) ==> token.Some? && OwnedBy(db, i, token.value)
    ensures EffectiveStatus(o.events) == 204 <==>
      token.Some? && Atoi(idParam).Some? && OwnedBy(db, Atoi(idParam).value, token.value)
  {
    match Atoi(idParam)
    case None => Outcome([HttpError(400, "Invalid listing ID")], db)
    case Some(id) =>
      if token.None? then Outcome([HttpError(401, "User ID not found in token")], db)
      else
        match LS.GetByID(db, id)
        case Failure(_) => Outcome(Invoke(ListingGet(id), [HttpError(400, "Invalid listing ID")]), db)
        case Success(stored) =>
          if stored.userId != token.value then
            Outcome(Invoke(ListingGet(id), [HttpError(401, "Cannot Delete Listing For Another User")]), db)
          else
            var run := RunDelete(id, db);
            Outcome(Invoke(ListingGet(id), run.events), run.db)
  }
}
