/** `Services.ListingService`: each query is a filter (and for the recency
    queries a sort) over the listings table; Create, Update and Delete
    produce the next database and the error the Go method returns. */
module ListingService {
  import opened Wrappers
  import opened GoStd
  import opened Geocode
  import opened Schema
  import opened Seqs

  /** The two values the type filter recognises. */
  predicate IsListingType(t: string) { t == "Request" || t == "Offer" }

  /** The loose type filter: a recognised value must match the row's type;
      any other value (including "") applies no restriction. */
  predicate TypeFilter(t: string, l: Listing) {
    IsListingType(t) ==> l.listingType == t
  }

  /** `title LIKE '%term%' OR description LIKE '%term%'`, read as literal
      substring containment. */
  predicate SearchFilter(term: string, l: Listing) {
    Contains(l.title, term) || Contains(l.description, term)
  }

  /** `ST_Distance_Sphere` in metres: supplied by the caller, never computed. */
  type Sphere = (Geometry, Geometry) -> real

  /** The query point `POINT(longitude latitude)`: longitude first. */
  function QueryOrigin(latitude: real, longitude: real): (g: Geometry)
    ensures g.x == longitude && g.y == latitude
  {
    Geometry(longitude, latitude)
  }

  /** The distance predicate, with the kilometre radius scaled to metres and
      compared strictly. */
  predicate WithinRadius(sphere: Sphere, latitude: real, longitude: real, maxDistance: real, l: Listing) {
    sphere(StoredGeometry(l.location), QueryOrigin(latitude, longitude)) < maxDistance * 1000.0
  }

  /** The values the store supplies for columns an INSERT leaves out. */
  datatype InsertDefaults = InsertDefaults(dateCreated: string, active: bool)

  /** The next database and the result of `Create`. */
  datatype Created = Created(db: Db, result: Result<Listing, string>)

  /** `queryListings`: run a WHERE predicate over the table. On success the
      result is a sequence (possibly empty, never absent) holding each
      matching row as many times as the table does and nothing else. */
  function QueryListings(db: Db, keep: Listing -> bool): (r: Result<seq<Listing>, string>)
    ensures r.Failure? <==> db.fault.Some?
    ensures r.Failure? ==> r.error == "could not retrieve listings: " + db.fault.value
    ensures r.Success? ==> forall l :: multiset(r.value)[l] == if keep(l) then multiset(db.listings)[l] else 0
    ensures r.Success? ==> forall l :: l in r.value <==> l in db.listings && keep(l)
  {
    if db.fault.Some? then Failure("could not retrieve listings: " + db.fault.value)
    else
      FilterCount(db.listings, keep);
      Success(Filter(db.listings, keep))
  }

  /** Zero matching rows give the empty sequence. */
  lemma QueryListingsEmpty(db: Db, keep: Listing -> bool)
    requires db.fault.None?
    requires forall l :: l in db.listings ==> !keep(l)
    ensures QueryListings(db, keep) == Success([])
  {
    FilterNone(db.listings, keep);
  }

  /** `GetAll`: every listing of a recognised type, else the whole table. */
  function GetAll(db: Db, listingType: string): (r: Result<seq<Listing>, string>)
    ensures r.Failure? <==> db.fault.Some?
    ensures r.Success? ==> forall l :: multiset(r.value)[l] == if TypeFilter(listingType, l) then multiset(db.listings)[l] else 0
    ensures r.Success? ==> forall l :: l in r.value <==> l in db.listings && TypeFilter(listingType, l)
    ensures r.Success? && !IsListingType(listingType) ==> r.value == db.listings
  {
    var keep := (l: Listing) => TypeFilter(listingType, l);
    if db.fault.None? && !IsListingType(listingType) then
      FilterAll(db.listings, keep);
      QueryListings(db, keep)
    else QueryListings(db, keep)
  }

  /** `GetByUserID`: the user's listings, with the same loose type filter. */
  function GetByUserID(db: Db, userId: int, listingType: string): (r: Result<seq<Listing>, string>)
    ensures r.Failure? <==> db.fault.Some?
    ensures r.Success? ==>
      forall l :: multiset(r.value)[l] ==
        if l.userId == userId && TypeFilter(listingType, l) then multiset(db.listings)[l] else 0
    ensures r.Success? ==> forall l :: l in r.value <==> l in db.listings && l.userId == userId && TypeFilter(listingType, l)
  {
    var keep := (l: Listing) => l.userId == userId && TypeFilter(listingType, l);
    QueryListings(db, keep)
  }

  /** `GetBySearch`: listings whose title or description contains the term,
      with the loose type filter. */
  function GetBySearch(db: Db, term: string, listingType: string): (r: Result<seq<Listing>, string>)
    ensures r.Failure? <==> db.fault.Some?
    ensures r.Success? ==>
      forall l :: multiset(r.value)[l] ==
        if SearchFilter(term, l) && TypeFilter(listingType, l) then multiset(db.listings)[l] else 0
    ensures r.Success? ==> forall l :: l in r.value <==> l in db.listings && SearchFilter(term, l) && TypeFilter(listingType, l)
  {
    var keep := (l: Listing) => SearchFilter(term, l) && TypeFilter(listingType, l);
    QueryListings(db, keep)
  }

  /** An empty search term matches every row, so the search degenerates to
      `GetAll`. */
  lemma EmptySearchIsGetAll(db: Db, listingType: string)
    ensures GetBySearch(db, "", listingType) == GetAll(db, listingType)
  {
    forall l: Listing ensures SearchFilter("", l) {
      ContainsEmpty(l.title);
    }
    var k1 := (l: Listing) => SearchFilter("", l) && TypeFilter(listingType, l);
    var k2 := (l: Listing) => TypeFilter(listingType, l);
    FilterSameKeep(db.listings, k1, k2);
  }

  lemma {:induction false} FilterSameKeep(s: seq<Listing>, k1: Listing -> bool, k2: Listing -> bool)
    requires forall l :: k1(l) == k2(l)
    ensures Filter(s, k1) == Filter(s, k2)
  {
    if |s| > 0 {
      FilterSameKeep(s[1..], k1, k2);
    }
  }

  function DateKey(l: Listing): string { l.dateCreated }

  /** A permutation of the given rows, newest `date_created` first. */
  function NewestFirst(rows: seq<Listing>): (r: seq<Listing>)
    ensures SortedDesc(r, DateKey)
    ensures multiset(r) == multiset(rows)
  {
    SortDescCorrect(rows, DateKey);
    SortDesc(rows, DateKey)
  }

  /** `GetByDateCreatedDescending`: the `GetAll` rows, newest first. */
  function GetByDateCreatedDescending(db: Db, listingType: string): (r: Result<seq<Listing>, string>)
    ensures r.Failure? <==> db.fault.Some?
    ensures r.Success? ==> SortedDesc(r.value, DateKey)
    ensures r.Success? ==> forall l :: multiset(r.value)[l] == if TypeFilter(listingType, l) then multiset(db.listings)[l] else 0
  {
    var q := QueryListings(db, (l: Listing) => TypeFilter(listingType, l));
    if q.Failure? then q else Success(NewestFirst(q.value))
  }

  /** `GetByDateCreatedAndSearchDescending`: the `GetBySearch` rows, newest
      first. */
  function GetByDateCreatedAndSearchDescending(db: Db, term: string, listingType: string): (r: Result<seq<Listing>, string>)
    ensures r.Failure? <==> db.fault.Some?
    ensures r.Success? ==> SortedDesc(r.value, DateKey)
    ensures r.Success? ==>
      forall l :: multiset(r.value)[l] == if SearchFilter(term, l) && TypeFilter(listingType, l) then multiset(db.listings)[l] else 0
  {
    var q := QueryListings(db, (l: Listing) => SearchFilter(term, l) && TypeFilter(listingType, l));
    if q.Failure? then q else Success(NewestFirst(q.value))
  }

  /** `GetByDistance`: listings strictly within `maxDistance` kilometres of
      the query point, with the loose type filter. */
  function GetByDistance(db: Db, latitude: real, longitude: real, maxDistance: real, listingType: string, sphere: Sphere)
    : (r: Result<seq<Listing>, string>)
    ensures r.Failure? <==> db.fault.Some?
    ensures r.Success? ==>
      forall l :: multiset(r.value)[l] ==
        if WithinRadius(sphere, latitude, longitude, maxDistance, l) && TypeFilter(listingType, l)
        then multiset(db.listings)[l] else 0
    ensures r.Success? ==> forall l :: l in r.value <==>
      l in db.listings && WithinRadius(sphere, latitude, longitude, maxDistance, l) && TypeFilter(listingType, l)
  {
    var keep := (l: Listing) => WithinRadius(sphere, latitude, longitude, maxDistance, l) && TypeFilter(listingType, l);
    QueryListings(db, keep)
  }

  /** `GetByDistanceAndSearch`: the distance, type and search predicates
      AND-ed together. */
  function GetByDistanceAndSearch(db: Db, latitude: real, longitude: real, maxDistance: real, listingType: string,
                                  term: string, sphere: Sphere)
    : (r: Result<seq<Listing>, string>)
    ensures r.Failure? <==> db.fault.Some?
    ensures r.Success? ==>
      forall l :: multiset(r.value)[l] ==
        if WithinRadius(sphere, latitude, longitude, maxDistance, l) && TypeFilter(listingType, l) && SearchFilter(term, l)
        then multiset(db.listings)[l] else 0
    ensures r.Success? ==> forall l :: l in r.value <==>
      l in db.listings && WithinRadius(sphere, latitude, longitude, maxDistance, l) && TypeFilter(listingType, l)
      && SearchFilter(term, l)
  {
    var keep := (l: Listing) => WithinRadius(sphere, latitude, longitude, maxDistance, l) && TypeFilter(listingType, l)
                     && SearchFilter(term, l);
    QueryListings(db, keep)
  }

  /** With a sphere distance that is zero from a point to itself, a listing
      stored exactly at the query point is returned exactly when the radius
      is positive and its type passes: the comparison is strict, so a zero
      radius excludes it. */
  lemma ListingAtOriginFound(db: Db, l: Listing, maxDistance: real, listingType: string, sphere: Sphere)
    requires db.fault.None? && l in db.listings
    requires forall g :: sphere(g, g) == 0.0
    ensures var r := GetByDistance(db, l.location.lat, l.location.lng, maxDistance, listingType, sphere);
      l in r.value <==> maxDistance > 0.0 && TypeFilter(listingType, l)
  {
    assert StoredGeometry(l.location) == QueryOrigin(l.location.lat, l.location.lng);
  }

  /** The first row with the given id, if any. */
  function FirstWithId(rows: seq<Listing>, id: int): (r: Option<Listing>)
    ensures r.Some? ==> r.value in rows && r.value.listingId == id
    ensures r.None? <==> forall l :: l in rows ==> l.listingId != id
  {
    if |rows| == 0 then None
    else if rows[0].listingId == id then Some(rows[0])
    else
      assert forall l :: l in rows ==> l == rows[0] || l in rows[1..];
      FirstWithId(rows[1..], id)
  }

  /** `GetByID`: the row with that id, the error "listing not found" when
      there is none, or the wrapped driver error. */
  function GetByID(db: Db, id: int): (r: Result<Listing, string>)
    ensures db.fault.Some? ==> r == Failure("could not retrieve listing: " + db.fault.value)
    ensures db.fault.None? ==> (r.Failure? <==> forall l :: l in db.listings ==> l.listingId != id)
    ensures db.fault.None? && r.Failure? ==> r.error == "listing not found"
    ensures r.Success? ==> r.value in db.listings && r.value.listingId == id
  {
    if db.fault.Some? then Failure("could not retrieve listing: " + db.fault.value)
    else
      match FirstWithId(db.listings, id)
      case Some(l) => Success(l)
      case None => Failure("listing not found")
  }

  /** The WHERE predicate of a delete, negated: the rows that survive. */
  function OtherThan(id: int): Listing -> bool {
    (l: Listing) => l.listingId != id
  }

  /** `Delete`: remove the rows with that id; "listing not found" and no
      change when there is none. */
  function Delete(db: Db, id: int): (m: Mutation)
    ensures db.fault.Some? ==> m == Mutation(db, Some("could not delete listing: " + db.fault.value))
    ensures db.fault.None? && (forall l :: l in db.listings ==> l.listingId != id) ==>
      m == Mutation(db, Some("listing not found"))
    ensures db.fault.None? && (exists l :: l in db.listings && l.listingId == id) ==>
      && m.err.None?
      && m.db.transactions == db.transactions && m.db.fault == db.fault
      && forall l :: multiset(m.db.listings)[l] == if l.listingId == id then 0 else multiset(db.listings)[l]
  {
    if db.fault.Some? then Mutation(db, Some("could not delete listing: " + db.fault.value))
    else
      if FirstWithId(db.listings, id).None? then Mutation(db, Some("listing not found"))
      else
        FilterCount(db.listings, OtherThan(id));
        Mutation(db.(listings := Filter(db.listings, OtherThan(id))), None)
  }

  /** With unique ids, a successful delete removes exactly one row. */
  lemma DeleteRemovesOneRow(db: Db, id: int)
    requires db.fault.None? && UniqueListingIds(db.listings)
    requires exists l :: l in db.listings && l.listingId == id
    ensures |Delete(db, id).db.listings| == |db.listings| - 1
  {
    var i :| 0 <= i < |db.listings| && db.listings[i].listingId == id;
    FilterDropsOne(db.listings, OtherThan(id), i);
  }

  /** The row an UPDATE writes: the six columns of the statement taken from
      the request and the geocoder, every other column kept. */
  function Overwrite(row: Listing, body: Listing, place: Answer): Listing {
    row.(title := body.title, description := body.description, location := body.location,
         listingType := body.listingType, city := place.city, country := place.country)
  }

  /** `Update`: geocode the new location first (a failure aborts with no
      write); then rewrite title, description, location, type, city and
      country of the rows with that id. Matching no row is not an error. */
  function Update(db: Db, body: Listing, id: int, geocode: Point -> Answer): (m: Mutation)
    ensures geocode(body.location).err.Some? ==>
      m == Mutation(db, Some("error validating coordinates: " + geocode(body.location).err.value))
    ensures geocode(body.location).err.None? && db.fault.Some? ==>
      m == Mutation(db, Some("could not update listing: " + db.fault.value))
    ensures m.err.None? <==> geocode(body.location).err.None? && db.fault.None?
    ensures m.db.transactions == db.transactions && m.db.fault == db.fault
    ensures |m.db.listings| == |db.listings|
    ensures forall i :: 0 <= i < |db.listings| && (m.err.Some? || db.listings[i].listingId != id) ==>
      m.db.listings[i] == db.listings[i]
    ensures forall i :: 0 <= i < |db.listings| && m.err.None? && db.listings[i].listingId == id ==>
      var (old_, new_) := (db.listings[i], m.db.listings[i]);
      && new_.listingId == old_.listingId && new_.userId == old_.userId
      && new_.dateCreated == old_.dateCreated && new_.active == old_.active
      && new_.title == body.title && new_.description == body.description
      && new_.location == body.location && new_.listingType == body.listingType
      && new_.city == geocode(body.location).city && new_.country == geocode(body.location).country
  {
    var place := geocode(body.location);
    if place.err.Some? then Mutation(db, Some("error validating coordinates: " + place.err.value))
    else if db.fault.Some? then Mutation(db, Some("could not update listing: " + db.fault.value))
    else
      var rows := db.listings;
      var rows' := seq(|rows|, i requires 0 <= i < |rows| =>
        if rows[i].listingId == id then Overwrite(rows[i], body, place) else rows[i]);
      Mutation(db.(listings := rows'), None)
  }

  /** `Create`: geocode first (a failure aborts with no write), insert the
      row with a fresh id and the store's defaults, then read it back. The
      request's own id, date, active flag, city and country are ignored. */
  function Create(db: Db, body: Listing, geocode: Point -> Answer, defaults: InsertDefaults): (c: Created)
    ensures geocode(body.location).err.Some? ==>
      c == Created(db, Failure("could not validate coordinates: " + geocode(body.location).err.value))
    ensures geocode(body.location).err.None? && db.fault.Some? ==>
      c == Created(db, Failure("could not create listing: " + db.fault.value))
    ensures c.result.Success? <==> geocode(body.location).err.None? && db.fault.None?
    ensures c.db.transactions == db.transactions && c.db.fault == db.fault
    ensures c.result.Success? ==>
      var row := c.result.value;
      && c.db.listings == db.listings + [row]
      && (forall l :: l in db.listings ==> l.listingId != row.listingId)
      && row.listingType == body.listingType && row.location == body.location && row.userId == body.userId
      && row.title == body.title && row.description == body.description
      && row.dateCreated == defaults.dateCreated && row.active == defaults.active
      && row.city == geocode(body.location).city && row.country == geocode(body.location).country
  {
    var place := geocode(body.location);
    if place.err.Some? then Created(db, Failure("could not validate coordinates: " + place.err.value))
    else if db.fault.Some? then Created(db, Failure("could not create listing: " + db.fault.value))
    else
      var id := NextListingId(db.listings);
      var row := Listing(id, body.listingType, body.location, body.userId, body.title, body.description,
                         defaults.dateCreated, defaults.active, place.city, place.country);
      var db' := db.(listings := db.listings + [row]);
      FirstAfterFreshAppend(db.listings, row);
      match GetByID(db', id)
      case Success(stored) => Created(db', Success(stored))
      case Failure(e) => Created(db', Failure("could not retrieve newly created listing: " + e))
  }

  /** Reading back a freshly appended row finds that row. */
  lemma {:induction false} FirstAfterFreshAppend(rows: seq<Listing>, row: Listing)
    requires forall l :: l in rows ==> l.listingId != row.listingId
    ensures FirstWithId(rows + [row], row.listingId) == Some(row)
  {
    if |rows| > 0 {
      assert (rows + [row])[1..] == rows[1..] + [row];
      FirstAfterFreshAppend(rows[1..], row);
    }
  }

  /** Creating keeps listing ids unique: the new row's id is fresh. */
  lemma CreateKeepsIdsUnique(db: Db, body: Listing, geocode: Point -> Answer, defaults: InsertDefaults)
    requires UniqueListingIds(db.listings)
    ensures UniqueListingIds(Create(db, body, geocode, defaults).db.listings)
  {
    var c := Create(db, body, geocode, defaults);
    if c.db != db {
      var rows := c.db.listings;
      forall i, j | 0 <= i < j < |rows| ensures rows[i].listingId != rows[j].listingId {
        if j == |db.listings| {
          assert rows[i] in db.listings;
        }
      }
    }
  }

  /** Updating keeps every row's id, and so keeps ids unique. */
  lemma UpdateKeepsIdsUnique(db: Db, body: Listing, id: int, geocode: Point -> Answer)
    requires UniqueListingIds(db.listings)
    ensures UniqueListingIds(Update(db, body, id, geocode).db.listings)
  {
  }
}
