/** Reverse geocoding (`Utils.ReverseGeocode`) after the HTTP exchange: the
    outcome of the request is an input, and what is modelled is how that
    outcome becomes the `(city, country, error)` triple the services
    consume, including the city fallback over the address fields. */
module Geocode {
  import opened Wrappers

  /** The `address` object of the geocoder's JSON reply. */
  datatype Address = Address(
    city: string,
    village: string,
    town: string,
    suburb: string,
    state: string,
    country: string)

  /** How the body of a reply with some status turned out. */
  datatype Body =
    | ReadFailed(readError: string)
    | Unparseable(jsonError: string)
    | Parsed(address: Address)

  /** The outcome of the HTTP GET: no reply at all, or a reply with its
      numeric status, status line and body. */
  datatype Exchange =
    | SendFailed(sendError: string)
    | Reply(statusCode: int, statusLine: string, body: Body)

  /** Go's `(city, country, err)` result; on error both strings are empty. */
  datatype Answer = Answer(city: string, country: string, err: Option<string>)

  /** The first non-empty string of a list, or "" when all are empty: the
      reference reading of the city fallback. */
  function FirstNonEmpty(candidates: seq<string>): (r: string)
    ensures r == "" <==> forall i :: 0 <= i < |candidates| ==> candidates[i] == ""
    ensures r != "" ==> exists i :: 0 <= i < |candidates| && candidates[i] == r
                          && forall j :: 0 <= j < i ==> candidates[j] == ""
  {
    if |candidates| == 0 then ""
    else if candidates[0] != "" then candidates[0]
    else
      var r := FirstNonEmpty(candidates[1..]);
      assert forall i :: 1 <= i < |candidates| ==> candidates[i] == candidates[1..][i - 1];
      r
  }

  /** The fields the city falls back through, in the order they are tried. */
  function CityCandidates(a: Address): seq<string> {
    [a.city, a.village, a.town, a.suburb, a.state]
  }

  /** The city chosen from a parsed address: the `city` field, else the
      first non-empty of village, town, suburb and state, else "". */
  function CityOf(a: Address): string
  {
    var city := a.city;
    if city == "" then
      if a.village != "" then a.village
      else if a.town != "" then a.town
      else if a.suburb != "" then a.suburb
      else if a.state != "" then a.state
      else city
    else city
  }

  /** The nested-if selection agrees with the first-non-empty rule, so the
      city is empty exactly when all five fields are. */
  lemma CityIsFirstNonEmpty(a: Address)
    ensures CityOf(a) == FirstNonEmpty(CityCandidates(a))
    ensures CityOf(a) == "" <==> a.city == "" && a.village == "" && a.town == "" && a.suburb == "" && a.state == ""
  {
    var c0 := CityCandidates(a);
    var c1 := [a.village, a.town, a.suburb, a.state];
    var c2 := [a.town, a.suburb, a.state];
    var c3 := [a.suburb, a.state];
    var c4 := [a.state];
    assert c0[1..] == c1 && c1[1..] == c2 && c2[1..] == c3 && c3[1..] == c4 && c4[1..] == [];
    assert FirstNonEmpty(c4) == a.state;
    assert FirstNonEmpty(c3) == if a.suburb != "" then a.suburb else a.state;
    assert FirstNonEmpty(c2) == if a.town != "" then a.town else FirstNonEmpty(c3);
    assert FirstNonEmpty(c1) == if a.village != "" then a.village else FirstNonEmpty(c2);
  }

  /** `ReverseGeocode` from the exchange onwards: transport, status, read
      and JSON failures give an error and two empty strings; otherwise the
      chosen city and the address's country, unchanged. */
  function ReverseGeocode(x: Exchange): (r: Answer)
    ensures r.err.Some? ==> r.city == "" && r.country == ""
    ensures r.err.None? <==> x.Reply? && x.statusCode == 200 && x.body.Parsed?
    ensures r.err.None? ==> r.city == CityOf(x.body.address) && r.country == x.body.address.country
  {
    match x
    case SendFailed(e) => Answer("", "", Some("error sending request: " + e))
    case Reply(code, line, body) =>
      if code != 200 then Answer("", "", Some("non-OK HTTP status: " + line))
      else
        match body
        case ReadFailed(e) => Answer("", "", Some("error reading response: " + e))
        case Unparseable(e) => Answer("", "", Some("error parsing JSON: " + e))
        case Parsed(a) => Answer(CityOf(a), a.country, None)
  }
}
