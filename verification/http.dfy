/** What a handler does to its `http.ResponseWriter`, as a log of events,
    and the status the client ends up receiving. `http.Error(w, msg, code)`
    writes a header and a body line; `w.WriteHeader(code)` writes a header;
    `w.Write` and `json.Encoder.Encode` write body bytes, which commit a
    200 header when none was written yet. Only the first header a handler
    writes reaches the client: later ones are dropped by `net/http` as
    superfluous, but their body text is still sent. Service calls are
    logged too, so that "was the row updated" is visible in the log. */
module Http {
  import opened Wrappers
  import opened Schema

  /** The body values handlers write. */
  datatype Payload =
    | Text(text: string)
    | ListingJson(listing: Listing)
    | TransactionJson(transaction: Transaction)
    | TransactionsJson(transactions: seq<Transaction>)
    | ContractJson(data: ContractData, english: string, arabic: string)

  /** The service and storage operations a handler invokes. */
  datatype Op =
    | ListingGet(id: int)
    | ListingCreate(listing: Listing)
    | ListingUpdate(id: int, listing: Listing)
    | ListingDelete(id: int)
    | TxGet(id: int)
    | TxCreate(transaction: Transaction)
    | TxUpdate(id: int, transaction: Transaction)
    | TxDelete(id: int)
    | UserGet(id: int)
    | FileSave(index: nat, name: string)
    | ImageAdd(name: string, userId: int, listingId: int)
    | ImageShow(imageId: int, show: bool)

  datatype Event =
    | HttpError(code: int, message: string)
    | WriteHeader(code: int)
    | Write(payload: Payload)
    | Call(op: Op)

  /** The events that put a header on the wire (if none is there yet). */
  predicate Commits(e: Event) { !e.Call? }

  /** The header an event commits. */
  function StatusOf(e: Event): int
    requires Commits(e)
  {
    match e
    case HttpError(code, _) => code
    case WriteHeader(code) => code
    case Write(_) => 200
  }

  /** The status the client receives: that of the first committing event,
      or 200 when the handler commits nothing. */
  function EffectiveStatus(events: seq<Event>): int {
    if |events| == 0 then 200
    else if Commits(events[0]) then StatusOf(events[0])
    else EffectiveStatus(events[1..])
  }

  /** The first event that commits decides the status. */
  lemma {:induction false} FirstCommitDecides(events: seq<Event>)
    ensures (forall i :: 0 <= i < |events| ==> !Commits(events[i])) ==> EffectiveStatus(events) == 200
    ensures forall i :: 0 <= i < |events| && Commits(events[i]) && (forall j :: 0 <= j < i ==> !Commits(events[j])) ==>
                        EffectiveStatus(events) == StatusOf(events[i])
  {
    if |events| > 0 && !Commits(events[0]) {
      FirstCommitDecides(events[1..]);
      assert forall i :: 1 <= i < |events| ==> events[i] == events[1..][i - 1];
    }
  }

  /** Once a prefix has committed a header, nothing after it changes the
      status. */
  lemma {:induction false} CommittedPrefixDecides(a: seq<Event>, b: seq<Event>)
    requires exists i :: 0 <= i < |a| && Commits(a[i])
    ensures EffectiveStatus(a + b) == EffectiveStatus(a)
  {
    if !Commits(a[0]) {
      var i :| 0 <= i < |a| && Commits(a[i]);
      assert Commits(a[1..][i - 1]);
      assert (a + b)[1..] == a[1..] + b;
      CommittedPrefixDecides(a[1..], b);
    }
  }

  /** Service calls before the first header do not affect the status. */
  lemma {:induction false} CallsDoNotCommit(a: seq<Event>, b: seq<Event>)
    requires forall i :: 0 <= i < |a| ==> a[i].Call?
    ensures EffectiveStatus(a + b) == EffectiveStatus(b)
  {
    if |a| > 0 {
      assert (a + b)[1..] == a[1..] + b;
      CallsDoNotCommit(a[1..], b);
    } else {
      assert a + b == b;
    }
  }

  /** The operation was invoked. */
  predicate Called(events: seq<Event>, op: Op) { Call(op) in events }

  /** An `http.Error` written without a `return` when `cond` holds, then
      whatever the handler goes on to do. */
  function Notice(cond: bool, code: int, message: string, rest: seq<Event>): (r: seq<Event>)
    ensures EffectiveStatus(r) == if cond then code else EffectiveStatus(rest)
    ensures forall op :: Called(r, op) <==> Called(rest, op)
  {
    if cond then [HttpError(code, message)] + rest else rest
  }

  /** A service call, then what the handler does with its answer. */
  function Invoke(op: Op, rest: seq<Event>): (r: seq<Event>)
    ensures EffectiveStatus(r) == EffectiveStatus(rest)
    ensures forall op' :: Called(r, op') <==> op' == op || Called(rest, op')
  {
    CallsDoNotCommit([Call(op)], rest);
    [Call(op)] + rest
  }

  /** A request body as `json.Decoder.Decode` leaves it. */
  datatype Decoded<T> = Decoded(value: T) | Malformed(reason: string)

  /** `r.Context().Value("token_user_id").(int)` in the two-value form: the
      user id, or Go's zero value 0 with `ok == false`. */
  function TokenOrZero(token: Option<int>): (id: int)
    ensures token.Some? ==> id == token.value
    ensures token.None? ==> id == 0
  {
    if token.Some? then token.value else 0
  }

  /** A handler's observable effect: its event log and the database after. */
  datatype Outcome = Outcome(events: seq<Event>, db: Db)
}
