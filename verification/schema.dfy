/** The records the backend stores and exchanges, and the database they live
    in. Each table is an immutable sequence of rows in the store's order;
    `fault` stands for a database that fails every statement with the same
    driver error. Go's float64 values (coordinates, prices) are `real`s
    that the model never computes with. */
module Schema {
  import opened Wrappers

  /** `geo.Point`: longitude and latitude. */
  datatype Point = Point(lng: real, lat: real)

  /** A MySQL point geometry `POINT(x y)`. */
  datatype Geometry = Geometry(x: real, y: real)

  /** `Point.ToWKT` writes `POINT(lng lat)`, so a stored listing's x is its
      longitude and its y its latitude. */
  function StoredGeometry(p: Point): (g: Geometry)
    ensures g.x == p.lng && g.y == p.lat
  {
    Geometry(p.lng, p.lat)
  }

  /** `Services.Listing`. `listingType` is the `type` column. */
  datatype Listing = Listing(
    listingId: int,
    listingType: string,
    location: Point,
    userId: int,
    title: string,
    description: string,
    dateCreated: string,
    active: bool,
    city: string,
    country: string)

  /** `Services.Transaction`. "Offered" is the party who asks for the
      service, "offering" the party who provides it. */
  datatype Transaction = Transaction(
    transactionId: int,
    userOfferedId: int,
    userOfferingId: int,
    listingId: int,
    price: real,
    currencyCode: string,
    dateCreated: string,
    jobStartDate: string,
    jobEndDate: string,
    detailsFromOffered: string,
    detailsFromOffering: string,
    status: string)

  /** Go's zero `Transaction{}`. */
  const ZeroTransaction := Transaction(0, 0, 0, 0, 0.0, "", "", "", "", "", "", "")

  /** The fields of a user that the contract assembly reads, with the
      derived city and country. */
  datatype User = User(
    userId: int,
    firstName: string,
    lastName: string,
    phoneNumber: string,
    city: string,
    country: string)

  /** `ContractData`: the values a contract template is rendered with. */
  datatype ContractData = ContractData(
    tradesmanFirstName: string,
    tradesmanLastName: string,
    tradesmanPhone: string,
    tradesmanLocation: string,
    tradesmanLocDetails: string,
    clientFirstName: string,
    clientLastName: string,
    clientPhone: string,
    clientLocation: string,
    clientLocDetails: string,
    listingType: string,
    listingTitle: string,
    listingDescription: string,
    listingCity: string,
    listingCountry: string,
    transactionPrice: real,
    transactionCurrency: string,
    jobStartDate: string,
    jobEndDate: string,
    dateCreated: string,
    detailsFromOffering: string,
    detailsFromOffered: string)

  /** The MySQL database as the services see it. */
  datatype Db = Db(listings: seq<Listing>, transactions: seq<Transaction>, fault: Option<string>)

  /** The next database and the error a write returns. */
  datatype Mutation = Mutation(db: Db, err: Option<string>)

  /** The primary-key invariants of the two tables. */
  predicate UniqueListingIds(rows: seq<Listing>) {
    forall i, j :: 0 <= i < j < |rows| ==> rows[i].listingId != rows[j].listingId
  }

  predicate UniqueTransactionIds(rows: seq<Transaction>) {
    forall i, j :: 0 <= i < j < |rows| ==> rows[i].transactionId != rows[j].transactionId
  }

  /** The value the store gives a new row's auto-increment key: one more
      than the largest key present, and at least 1 (1 for an empty table). */
  function NextListingId(rows: seq<Listing>): (id: int)
    ensures id >= 1
    ensures forall l :: l in rows ==> l.listingId < id
  {
    if |rows| == 0 then 1
    else
      var rest := NextListingId(rows[1..]);
      assert forall l :: l in rows ==> l == rows[0] || l in rows[1..];
      if rows[0].listingId >= rest then rows[0].listingId + 1 else rest
  }

  function NextTransactionId(rows: seq<Transaction>): (id: int)
    ensures id >= 1
    ensures forall t :: t in rows ==> t.transactionId < id
  {
    if |rows| == 0 then 1
    else
      var rest := NextTransactionId(rows[1..]);
      assert forall t :: t in rows ==> t == rows[0] || t in rows[1..];
      if rows[0].transactionId >= rest then rows[0].transactionId + 1 else rest
  }
}
