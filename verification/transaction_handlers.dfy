/** The transaction handlers of the API and the contract assembly. Every
    transaction route sits behind the token middleware; the handlers take
    the token user id it leaves in the context as an `Option`. */
module TransactionHandlers {
  import opened Wrappers
  import opened GoStd
  import opened Schema
  import opened Http
  import TS = TransactionService
  import LS = ListingService

  // ---------------------------------------------------------------------
  // createTransaction

  /** `createTransaction` as written: a missing token writes 401 and the
      handler carries on with user id 0; the body's offered user must be
      the token's user; the answer to a successful insert is Go's zero
      transaction with status 201. */
  function CreateTransaction(token: Option<int>, body: Decoded<Transaction>, db: Db, defaults: TS.TxDefaults): (o: Outcome)
    ensures body.Malformed? ==> o.db == db && forall op :: !Called(o.events, op)
    ensures o.db != db ==> body.Decoded? && body.value.userOfferedId == TokenOrZero(token)
    ensures forall t :: Called(o.events, TxCreate(t)) ==> body == Decoded(t) && t.userOfferedId == TokenOrZero(token)
    ensures EffectiveStatus(o.events) == 201 <==>
      token.Some? && body.Decoded? && body.value.userOfferedId == token.value && db.fault.None?
    ensures EffectiveStatus(o.events) == 201 ==> Write(TransactionJson(ZeroTransaction)) in o.events
  {
    var rest :=
      match body
      case Malformed(reason) => Outcome([HttpError(400, reason)], db)
      case Decoded(t) =>
        if t.userOfferedId != TokenOrZero(token) then Outcome([HttpError(401, "User offering ID not found in token")], db)
        else
          var c := TS.Create(db, t, defaults);
          var answer :=
            match c.result
            case Failure(err) => [HttpError(500, err)]
            case Success(created) => [WriteHeader(201), Write(TransactionJson(created))];
          Outcome(Invoke(TxCreate(t), answer), c.db);
    Outcome(Notice(token.None?, 401, "User ID not found in token", rest.events), rest.db)
  }

  /** Without a token the handler still inserts a row whose offered user is
      0, under a 401 the client sees. */
  lemma CreateTransactionWithoutToken(body: Transaction, db: Db, defaults: TS.TxDefaults)
    requires body.userOfferedId == 0 && db.fault.None?
    ensures var o := CreateTransaction(None, Decoded(body), db, defaults);
      && EffectiveStatus(o.events) == 401
      && |o.db.transactions| == |db.transactions| + 1
      && o.db.transactions[|db.transactions|].userOfferedId == 0
  {
  }

  // ---------------------------------------------------------------------
  // getTransactionByID

  /** A driver error never reads as "transaction not found". */
  lemma FaultIsNotNotFound(db: Db, id: int)
    ensures db.fault.Some? ==> TS.GetByID(db, id).Failure? && TS.GetByID(db, id).error != "transaction not found"
  {
    if db.fault.Some? {
      assert TS.GetByID(db, id).error[0] == 'c';
    }
  }

  /** `getTransactionByID`: 400, 404, 500 and 200 partition the requests by
      the path id and the table. Any authenticated user may read any
      transaction. */
  function GetTransactionByID(idParam: string, db: Db): (o: Outcome)
    ensures o.db == db
    ensures Atoi(idParam).None? ==> o.events == [HttpError(400, "Invalid transaction ID")]
    ensures EffectiveStatus(o.events) == 400 <==> Atoi(idParam).None?
    ensures EffectiveStatus(o.events) == 404 <==>
      Atoi(idParam).Some? && db.fault.None? && forall t :: t in db.transactions ==> t.transactionId != Atoi(idParam).value
    ensures EffectiveStatus(o.events) == 500 <==> Atoi(idParam).Some? && db.fault.Some?
    ensures EffectiveStatus(o.events) == 200 <==>
      Atoi(idParam).Some? && db.fault.None? && exists t :: t in db.transactions && t.transactionId == Atoi(idParam).value
    ensures EffectiveStatus(o.events) == 200 ==>
      exists t :: t in db.transactions && t.transactionId == Atoi(idParam).value && Write(TransactionJson(t)) in o.events
  {
    match Atoi(idParam)
    case None => Outcome([HttpError(400, "Invalid transaction ID")], db)
    case Some(id) =>
      FaultIsNotNotFound(db, id);
      var answer :=
        match TS.GetByID(db, id)
        case Failure(err) =>
          if err == "transaction not found" then [HttpError(404, "Transaction not found")] else [HttpError(500, err)]
        case Success(t) => [Write(TransactionJson(t))];
      Outcome(Invoke(TxGet(id), answer), db)
  }

  // ---------------------------------------------------------------------
  // The three list handlers

  /** A list query's answer: 500 with the service error, or the rows. */
  function ListAnswer(q: Result<seq<Transaction>, string>): (e: seq<Event>)
    ensures EffectiveStatus(e) == 200 <==> q.Success?
    ensures q.Success? ==> e == [Write(TransactionsJson(q.value))]
  {
    match q
    case Failure(err) => [HttpError(500, err)]
    case Success(rows) => [Write(TransactionsJson(rows))]
  }

  /** `getTransactionsByOfferedUserAndStatus`. */
  function GetTransactionsByOfferedUserAndStatus(userParam: string, status: string, db: Db): (o: Outcome)
    ensures o.db == db
    ensures Atoi(userParam).None? ==> o.events == [HttpError(400, "Invalid user ID")]
    ensures EffectiveStatus(o.events) == 200 <==> Atoi(userParam).Some? && db.fault.None?
    ensures EffectiveStatus(o.events) == 200 ==>
      o.events == [Write(TransactionsJson(TS.GetByOfferedUserAndStatus(db, Atoi(userParam).value, status).value))]
    ensures EffectiveStatus(o.events) == 200 ==>
      exists rows :: o.events == [Write(TransactionsJson(rows))]
        && forall t: Transaction :: multiset(rows)[t] ==
             if t.userOfferedId == Atoi(userParam).value && TS.StatusFilter(status, t) then multiset(db.transactions)[t] else 0
  {
    match Atoi(userParam)
    case None => Outcome([HttpError(400, "Invalid user ID")], db)
    case Some(u) => Outcome(ListAnswer(TS.GetByOfferedUserAndStatus(db, u, status)), db)
  }

  /** `getTransactionsByOfferingUserAndStatus`; its 400 text carries the
      parse error. */
  function GetTransactionsByOfferingUserAndStatus(userParam: string, status: string, db: Db): (o: Outcome)
    ensures o.db == db
    ensures Atoi(userParam).None? ==> o.events == [HttpError(400, "Invalid user ID " + AtoiError(userParam))]
    ensures EffectiveStatus(o.events) == 200 <==> Atoi(userParam).Some? && db.fault.None?
    ensures EffectiveStatus(o.events) == 200 ==>
      o.events == [Write(TransactionsJson(TS.GetByOfferingUserAndStatus(db, Atoi(userParam).value, status).value))]
    ensures EffectiveStatus(o.events) == 200 ==>
      exists rows :: o.events == [Write(TransactionsJson(rows))]
        && forall t: Transaction :: multiset(rows)[t] ==
             if t.userOfferingId == Atoi(userParam).value && TS.StatusFilter(status, t) then multiset(db.transactions)[t] else 0
  {
    match Atoi(userParam)
    case None => Outcome([HttpError(400, "Invalid user ID " + AtoiError(userParam))], db)
    case Some(u) => Outcome(ListAnswer(TS.GetByOfferingUserAndStatus(db, u, status)), db)
  }

  /** `getTransactionsByListingAndStatus`. */
  function GetTransactionsByListingAndStatus(listingParam: string, status: string, db: Db): (o: Outcome)
    ensures o.db == db
    ensures Atoi(listingParam).None? ==> o.events == [HttpError(400, "Invalid listing ID")]
    ensures EffectiveStatus(o.events) == 200 <==> Atoi(listingParam).Some? && db.fault.None?
    ensures EffectiveStatus(o.events) == 200 ==>
      o.events == [Write(TransactionsJson(TS.GetByListingAndStatus(db, Atoi(listingParam).value, status).value))]
    ensures EffectiveStatus(o.events) == 200 ==>
      exists rows :: o.events == [Write(TransactionsJson(rows))]
        && forall t: Transaction :: multiset(rows)[t] ==
             if t.listingId == Atoi(listingParam).value && TS.StatusFilter(status, t) then multiset(db.transactions)[t] else 0
  {
    match Atoi(listingParam)
    case None => Outcome([HttpError(400, "Invalid listing ID")], db)
    case Some(l) => Outcome(ListAnswer(TS.GetByListingAndStatus(db, l, status)), db)
  }

  // ---------------------------------------------------------------------
  // updateTransaction

  /** The update and its answer: 500 with the wrapped service error, or 204. */
  function RunUpdate(id: int, body: Transaction, db: Db): (o: Outcome)
    ensures o.db == TS.Update(db, id, body).db
    ensures Called(o.events, TxUpdate(id, body))
    ensures forall i, t :: Called(o.events, TxUpdate(i, t)) ==> i == id && t == body
    ensures EffectiveStatus(o.events) == 204 <==> db.fault.None?
  {
    var m := TS.Update(db, id, body);
    var answer := if m.err.Some? then [HttpError(500, "Failed to update transaction: " + m.err.value)]
                  else [WriteHeader(204)];
    Outcome(Invoke(TxUpdate(id, body), answer), m.db)
  }

  /** `updateTransaction` as written: the caller is authorised against the
      offered user named in the request body, not against the stored row. */
  function UpdateTransaction(token: Option<int>, idParam: string, body: Decoded<Transaction>, db: Db): (o: Outcome)
    ensures Atoi(idParam).None? ==> o == Outcome([HttpError(400, "Invalid transaction ID")], db)
    ensures o.db != db ==> token.Some? && body.Decoded? && body.value.userOfferedId == token.value
    ensures forall i, t :: Called(o.events, TxUpdate(i, t)) ==> token.Some? && t.userOfferedId == token.value
    ensures EffectiveStatus(o.events) == 204 <==>
      Atoi(idParam).Some? && body.Decoded? && token.Some? && body.value.userOfferedId == token.value && db.fault.None?
  {
    match Atoi(idParam)
    case None => Outcome([HttpError(400, "Invalid transaction ID")], db)
    case Some(id) =>
      match body
      case Malformed(reason) => Outcome([HttpError(400, "Failed to decode request body: " + reason)], db)
      case Decoded(t) =>
        if token.None? || t.userOfferedId != token.value then Outcome([HttpError(401, "Unauthorized")], db)
        else RunUpdate(id, t, db)
  }

  /** Whoever names themselves as the offered user in the body can rewrite
      a transaction they take no part in, and becomes its offered user. */
  lemma UpdateTransactionHijack(u: int, idParam: string, body: Transaction, db: Db)
    requires Atoi(idParam).Some? && db.fault.None? && UniqueTransactionIds(db.transactions)
    requires body.userOfferedId == u
    requires exists t :: t in db.transactions && t.transactionId == Atoi(idParam).value
                         && t.userOfferedId != u && t.userOfferingId != u
    ensures var o := UpdateTransaction(Some(u), idParam, Decoded(body), db);
      && EffectiveStatus(o.events) == 204
      && TS.GetByID(o.db, Atoi(idParam).value).Success?
      && TS.GetByID(o.db, Atoi(idParam).value).value.userOfferedId == u
  {
    var id := Atoi(idParam).value;
    TS.UpdateThenGetByID(db, id, body);
  }

  /** The participants of a transaction. */
  predicate Participant(t: Transaction, u: int) {
    t.userOfferedId == u || t.userOfferingId == u
  }

  /** The answer of `updateTransaction` and `deleteTransaction` to a failed
      lookup: 404 for the service's not-found error, 500 for any other. */
  function LookupFailed(err: string): (e: seq<Event>)
    ensures EffectiveStatus(e) == (if err == "transaction not found" then 404 else 500)
    ensures forall op :: !Called(e, op)
  {
    if err == "transaction not found" then [HttpError(404, "Transaction not found")]
    else [HttpError(500, "Failed to retrieve transaction: " + err)]
  }

  /** The stored row's lookup for an update: 404 when it is missing, 500
      on a driver error, 401 unless the caller is its offered user. */
  function UpdateStored(u: int, id: int, body: Transaction, db: Db): (o: Outcome)
    ensures o.db != db ==> TS.GetByID(db, id).Success? && TS.GetByID(db, id).value.userOfferedId == u
    ensures forall i, t :: Called(o.events, TxUpdate(i, t)) ==>
      i == id && t == body && TS.GetByID(db, i).Success? && TS.GetByID(db, i).value.userOfferedId == u
    ensures EffectiveStatus(o.events) == 204 <==>
      TS.GetByID(db, id).Success? && TS.GetByID(db, id).value.userOfferedId == u
    ensures EffectiveStatus(o.events) == 404 <==>
      db.fault.None? && forall t :: t in db.transactions ==> t.transactionId != id
  {
    FaultIsNotNotFound(db, id);
    match TS.GetByID(db, id)
    case Failure(err) =>
      Outcome(Invoke(TxGet(id), LookupFailed(err)), db)
    case Success(stored) =>
      if stored.userOfferedId != u then Outcome(Invoke(TxGet(id), [HttpError(401, "Unauthorized")]), db)
      else
        var run := RunUpdate(id, body, db);
        Outcome(Invoke(TxGet(id), run.events), run.db)
  }

  /** `updateTransaction` authorised against the stored row: the caller
      must be its offered user, and may not hand it to another. A missing
      row is a 404 as in `deleteTransaction`. */
  function UpdateTransactionGuarded(token: Option<int>, idParam: string, body: Decoded<Transaction>, db: Db): (o: Outcome)
    ensures o.db != db ==>
      && token.Some? && Atoi(idParam).Some? && TS.GetByID(db, Atoi(idParam).value).Success?
      && TS.GetByID(db, Atoi(idParam).value).value.userOfferedId == token.value
    ensures forall i, t :: Called(o.events, TxUpdate(i, t)) ==>
      && token.Some? && t.userOfferedId == token.value
      && TS.GetByID(db, i).Success? && TS.GetByID(db, i).value.userOfferedId == token.value
    ensures EffectiveStatus(o.events) == 204 <==>
      && Atoi(idParam).Some? && body.Decoded? && token.Some? && body.value.userOfferedId == token.value
      && TS.GetByID(db, Atoi(idParam).value).Success?
      && TS.GetByID(db, Atoi(idParam).value).value.userOfferedId == token.value
  {
    match Atoi(idParam)
    case None => Outcome([HttpError(400, "Invalid transaction ID")], db)
    case Some(id) =>
      match body
      case Malformed(reason) => Outcome([HttpError(400, "Failed to decode request body: " + reason)], db)
      case Decoded(t) =>
        if token.None? || t.userOfferedId != token.value then Outcome([HttpError(401, "Unauthorized")], db)
        else UpdateStored(token.value, id, t, db)
  }

  // ---------------------------------------------------------------------
  // deleteTransaction

  /** The delete and its answer: 500 with the wrapped service error, or 204. */
  function RunDelete(id: int, db: Db): (o: Outcome)
    ensures o.db == TS.Delete(db, id).db
    ensures Called(o.events, TxDelete(id))
    ensures forall i :: Called(o.events, TxDelete(i)) ==> i == id
    ensures EffectiveStatus(o.events) == 204 <==> TS.Delete(db, id).err.None?
  {
    var m := TS.Delete(db, id);
    var answer := if m.err.Some? then [HttpError(500, "Failed to delete transaction: " + m.err.value)]
                  else [WriteHeader(204)];
    Outcome(Invoke(TxDelete(id), answer), m.db)
  }

  /** The stored row's lookup for a delete: 404 when it is missing, 500
      on a driver error, 401 unless the caller is a party to it. */
  function DeleteStored(u: int, id: int, db: Db): (o: Outcome)
    ensures o.db != db ==> TS.GetByID(db, id).Success? && Participant(TS.GetByID(db, id).value, u)
    ensures forall i :: Called(o.events, TxDelete(i)) ==>
      i == id && TS.GetByID(db, i).Success? && Participant(TS.GetByID(db, i).value, u)
    ensures EffectiveStatus(o.events) == 204 <==>
      TS.GetByID(db, id).Success? && Participant(TS.GetByID(db, id).value, u)
    ensures EffectiveStatus(o.events) == 404 <==>
      db.fault.None? && forall t :: t in db.transactions ==> t.transactionId != id
  {
    FaultIsNotNotFound(db, id);
    match TS.GetByID(db, id)
    case Failure(err) =>
      Outcome(Invoke(TxGet(id), LookupFailed(err)), db)
    case Success(stored) => DeleteFound(u, id, stored, db)
  }

  /** The ownership test on a row that was found, then the delete. */
  function DeleteFound(u: int, id: int, stored: Transaction, db: Db): (o: Outcome)
    requires TS.GetByID(db, id) == Success(stored)
    ensures o.db != db ==> Participant(stored, u)
    ensures forall i :: Called(o.events, TxDelete(i)) ==> i == id && Participant(stored, u)
    ensures EffectiveStatus(o.events) == if Participant(stored, u) then 204 else 401
  {
    if !Participant(stored, u) then Outcome(Invoke(TxGet(id), [HttpError(401, "Unauthorized")]), db)
    else
      FoundIsDeletable(db, id);
      var run := RunDelete(id, db);
      Outcome(Invoke(TxGet(id), run.events), run.db)
  }

  /** A row `GetByID` finds is one `Delete` removes. */
  lemma FoundIsDeletable(db: Db, id: int)
    requires TS.GetByID(db, id).Success?
    ensures TS.Delete(db, id).err.None?
  {
    assert TS.GetByID(db, id).value in db.transactions;
  }

  /** `deleteTransaction`: either party may delete; a row that exists is
      always deleted once the caller is shown to be a party to it. */
  function DeleteTransaction(token: Option<int>, idParam: string, db: Db): (o: Outcome)
    ensures Atoi(idParam).None? ==> o == Outcome([HttpError(400, "Invalid transaction ID")], db)
    ensures o.db != db ==>
      && token.Some? && Atoi(idParam).Some? && TS.GetByID(db, Atoi(idParam).value).Success?
      && Participant(TS.GetByID(db, Atoi(idParam).value).value, token.value)
    ensures forall i :: Called(o.events, TxDelete(i)) ==>
      token.Some? && TS.GetByID(db, i).Success? && Participant(TS.GetByID(db, i).value, token.value)
    ensures EffectiveStatus(o.events) == 404 <==>
      Atoi(idParam).Some? && token.Some? && db.fault.None?
      && forall t :: t in db.transactions ==> t.transactionId != Atoi(idParam).value
    ensures EffectiveStatus(o.events) == 204 <==>
      Atoi(idParam).Some? && token.Some? && TS.GetByID(db, Atoi(idParam).value).Success?
      && Participant(TS.GetByID(db, Atoi(idParam).value).value, token.value)
  {
    match Atoi(idParam)
    case None => Outcome([HttpError(400, "Invalid transaction ID")], db)
    case Some(id) =>
      if token.None? then Outcome([HttpError(401, "Unauthorized")], db)
      else DeleteStored(token.value, id, db)
  }

  /** A party's delete of a stored transaction succeeds, the id reads as
      not found afterwards, and with unique ids one row is gone. */
  lemma DeleteTransactionByParty(u: int, idParam: string, db: Db)
    requires Atoi(idParam).Some? && db.fault.None? && UniqueTransactionIds(db.transactions)
    requires exists t :: t in db.transactions && t.transactionId == Atoi(idParam).value && Participant(t, u)
    ensures var o := DeleteTransaction(Some(u), idParam, db);
      && EffectiveStatus(o.events) == 204
      && TS.GetByID(o.db, Atoi(idParam).value) == Failure("transaction not found")
      && |o.db.transactions| == |db.transactions| - 1
  {
    var id := Atoi(idParam).value;
    var t :| t in db.transactions && t.transactionId == id && Participant(t, u);
    GetByIDFindsTheRow(db, t);
    TS.DeleteThenNotFound(db, id);
    TS.DeleteRemovesOneRow(db, id);
  }

  /** With unique ids, `GetByID` finds the one row that carries the id. */
  lemma GetByIDFindsTheRow(db: Db, t: Transaction)
    requires db.fault.None? && UniqueTransactionIds(db.transactions) && t in db.transactions
    ensures TS.GetByID(db, t.transactionId) == Success(t)
  {
    var r := TS.GetByID(db, t.transactionId).value;
    var i :| 0 <= i < |db.transactions| && db.transactions[i] == t;
    var k :| 0 <= k < |db.transactions| && db.transactions[k] == r;
    assert i == k;
  }

  // ---------------------------------------------------------------------
  // createTransactionContract

  /** The contract's values: the offering user is the tradesman, the
      offered user the client; each party's location is their country and
      their location details their city. */
  function ContractDataOf(t: Transaction, l: Listing, client: User, tradesman: User): (d: ContractData)
    ensures d.tradesmanFirstName == tradesman.firstName && d.tradesmanLastName == tradesman.lastName
    ensures d.tradesmanPhone == tradesman.phoneNumber
    ensures d.tradesmanLocation == tradesman.country && d.tradesmanLocDetails == tradesman.city
    ensures d.clientFirstName == client.firstName && d.clientLastName == client.lastName
    ensures d.clientPhone == client.phoneNumber
    ensures d.clientLocation == client.country && d.clientLocDetails == client.city
    ensures d.listingType == l.listingType && d.listingTitle == l.title && d.listingDescription == l.description
    ensures d.listingCity == l.city && d.listingCountry == l.country
    ensures d.transactionPrice == t.price && d.transactionCurrency == t.currencyCode
    ensures d.jobStartDate == t.jobStartDate && d.jobEndDate == t.jobEndDate && d.dateCreated == t.dateCreated
    ensures d.detailsFromOffering == t.detailsFromOffering && d.detailsFromOffered == t.detailsFromOffered
  {
    ContractData(
      tradesman.firstName, tradesman.lastName, tradesman.phoneNumber, tradesman.country, tradesman.city,
      client.firstName, client.lastName, client.phoneNumber, client.country, client.city,
      l.listingType, l.title, l.description, l.city, l.country,
      t.price, t.currencyCode, t.jobStartDate, t.jobEndDate, t.dateCreated,
      t.detailsFromOffering, t.detailsFromOffered)
  }

  /** Rendering both templates with the same data; the first failure wins. */
  function RenderBoth(english: string, arabic: string, data: ContractData,
                      render: (string, ContractData) -> Result<string, string>): (e: seq<Event>)
    ensures EffectiveStatus(e) == 200 || EffectiveStatus(e) == 500
    ensures EffectiveStatus(e) == 200 <==> render(english, data).Success? && render(arabic, data).Success?
    ensures EffectiveStatus(e) == 200 ==>
      e == [Write(ContractJson(data, render(english, data).value, render(arabic, data).value))]
  {
    match render(english, data)
    case Failure(err) => [HttpError(500, "Error generating English contract: " + err)]
    case Success(en) =>
      match render(arabic, data)
      case Failure(err) => [HttpError(500, "Error generating Arabic contract: " + err)]
      case Success(ar) => [Write(ContractJson(data, en, ar))]
  }

  /** Everything a contract for transaction `id` needs is there. */
  predicate Assemblable(db: Db, id: int, users: int -> Result<User, string>) {
    && TS.GetByID(db, id).Success?
    && var t := TS.GetByID(db, id).value;
    && LS.GetByID(db, t.listingId).Success?
    && users(t.userOfferedId).Success?
    && users(t.userOfferingId).Success?
  }

  /** The data a contract for an assemblable transaction is rendered with. */
  function AssembledData(db: Db, id: int, users: int -> Result<User, string>): ContractData
    requires Assemblable(db, id, users)
  {
    var t := TS.GetByID(db, id).value;
    ContractDataOf(t, LS.GetByID(db, t.listingId).value, users(t.userOfferedId).value, users(t.userOfferingId).value)
  }

  /** Fetching the transaction, its listing and its two users, then
      rendering. */
  function Assemble(id: int, english: string, arabic: string, db: Db,
                    users: int -> Result<User, string>, render: (string, ContractData) -> Result<string, string>)
    : (e: seq<Event>)
    ensures TS.GetByID(db, id).Failure? ==>
      e == [Call(TxGet(id)), HttpError(500, "Failed to retrieve transaction: " + TS.GetByID(db, id).error)]
    ensures EffectiveStatus(e) == 200 || EffectiveStatus(e) == 500
    ensures EffectiveStatus(e) == 200 <==>
      Assemblable(db, id, users)
      && render(english, AssembledData(db, id, users)).Success? && render(arabic, AssembledData(db, id, users)).Success?
    ensures EffectiveStatus(e) == 200 ==>
      var data := AssembledData(db, id, users);
      Write(ContractJson(data, render(english, data).value, render(arabic, data).value)) in e
  {
    match TS.GetByID(db, id)
    case Failure(err) => Invoke(TxGet(id), [HttpError(500, "Failed to retrieve transaction: " + err)])
    case Success(t) =>
      var fetched :=
        match LS.GetByID(db, t.listingId)
        case Failure(err) => [HttpError(500, "Failed to retrieve listing: " + err)]
        case Success(l) =>
          var parties :=
            match users(t.userOfferedId)
            case Failure(err) => [HttpError(500, "Failed to retrieve offered user: " + err)]
            case Success(client) =>
              var last :=
                match users(t.userOfferingId)
                case Failure(err) => [HttpError(500, "Failed to retrieve offering user: " + err)]
                case Success(tradesman) => RenderBoth(english, arabic, ContractDataOf(t, l, client, tradesman), render);
              Invoke(UserGet(t.userOfferingId), last);
          Invoke(UserGet(t.userOfferedId), parties);
      Invoke(TxGet(id), Invoke(ListingGet(t.listingId), fetched))
  }

  /** `createTransactionContract` as written. Both template reads assign
      the same error variable, so only the Arabic read is checked; a failed
      English read leaves the empty template. */
  function CreateTransactionContract(idParam: string, englishFile: Result<string, string>, arabicFile: Result<string, string>,
                                     db: Db, users: int -> Result<User, string>,
                                     render: (string, ContractData) -> Result<string, string>): (o: Outcome)
    ensures o.db == db
    ensures EffectiveStatus(o.events) in {200, 400, 500}
    ensures Atoi(idParam).None? ==> o.events == [HttpError(400, "Invalid transaction ID")]
    ensures Atoi(idParam).Some? && arabicFile.Failure? ==>
      o.events == [HttpError(400, "Error reading contract templates: " + arabicFile.error)]
    ensures EffectiveStatus(o.events) == 200 <==>
      && Atoi(idParam).Some? && arabicFile.Success? && Assemblable(db, Atoi(idParam).value, users)
      && var data := AssembledData(db, Atoi(idParam).value, users);
      && var english := if englishFile.Success? then englishFile.value else "";
      && render(english, data).Success? && render(arabicFile.value, data).Success?
    ensures EffectiveStatus(o.events) == 200 ==>
      var data := AssembledData(db, Atoi(idParam).value, users);
      var english := if englishFile.Success? then englishFile.value else "";
      Write(ContractJson(data, render(english, data).value, render(arabicFile.value, data).value)) in o.events
  {
    match Atoi(idParam)
    case None => Outcome([HttpError(400, "Invalid transaction ID")], db)
    case Some(id) =>
      var english := if englishFile.Success? then englishFile.value else "";
      match arabicFile
      case Failure(err) => Outcome([HttpError(400, "Error reading contract templates: " + err)], db)
      case Success(arabic) => Outcome(Assemble(id, english, arabic, db, users, render), db)
  }

  /** A missing English template is not reported: the contract is served
      with the English text rendered from the empty template. */
  lemma EnglishReadErrorIgnored(idParam: string, err: string, arabic: string, db: Db,
                                users: int -> Result<User, string>, render: (string, ContractData) -> Result<string, string>)
    requires Atoi(idParam).Some? && Assemblable(db, Atoi(idParam).value, users)
    requires var data := AssembledData(db, Atoi(idParam).value, users);
      render("", data).Success? && render(arabic, data).Success?
    ensures var o := CreateTransactionContract(idParam, Failure(err), Success(arabic), db, users, render);
      && EffectiveStatus(o.events) == 200
      && var data := AssembledData(db, Atoi(idParam).value, users);
      && Write(ContractJson(data, render("", data).value, render(arabic, data).value)) in o.events
  {
  }

  /** `createTransactionContract` checking both template reads. */
  function CreateTransactionContractChecked(idParam: string, englishFile: Result<string, string>,
                                            arabicFile: Result<string, string>, db: Db, users: int -> Result<User, string>,
                                            render: (string, ContractData) -> Result<string, string>): (o: Outcome)
    ensures o.db == db
    ensures Atoi(idParam).Some? && englishFile.Failure? ==>
      o.events == [HttpError(400, "Error reading contract templates: " + englishFile.error)]
    ensures EffectiveStatus(o.events) == 200 <==>
      && Atoi(idParam).Some? && englishFile.Success? && arabicFile.Success? && Assemblable(db, Atoi(idParam).value, users)
      && render(englishFile.value, AssembledData(db, Atoi(idParam).value, users)).Success?
      && render(arabicFile.value, AssembledData(db, Atoi(idParam).value, users)).Success?
    ensures EffectiveStatus(o.events) == 200 ==>
      var data := AssembledData(db, Atoi(idParam).value, users);
      Write(ContractJson(data, render(englishFile.value, data).value, render(arabicFile.value, data).value)) in o.events
  {
    if Atoi(idParam).Some? && englishFile.Failure? then
      Outcome([HttpError(400, "Error reading contract templates: " + englishFile.error)], db)
    else CreateTransactionContract(idParam, englishFile, arabicFile, db, users, render)
  }

  /** The contract names the offering user as the tradesman and the
      offered user as the client, each located by country with the city as
      detail, and carries the listing's description and the transaction's
      terms and dates. */
  lemma ContractParties(db: Db, id: int, users: int -> Result<User, string>)
    requires Assemblable(db, id, users)
    ensures var (t, d) := (TS.GetByID(db, id).value, AssembledData(db, id, users));
      && d.tradesmanFirstName == users(t.userOfferingId).value.firstName
      && d.tradesmanLastName == users(t.userOfferingId).value.lastName
      && d.tradesmanPhone == users(t.userOfferingId).value.phoneNumber
      && d.tradesmanLocation == users(t.userOfferingId).value.country
      && d.tradesmanLocDetails == users(t.userOfferingId).value.city
      && d.clientFirstName == users(t.userOfferedId).value.firstName
      && d.clientLastName == users(t.userOfferedId).value.lastName
      && d.clientPhone == users(t.userOfferedId).value.phoneNumber
      && d.clientLocation == users(t.userOfferedId).value.country
      && d.clientLocDetails == users(t.userOfferedId).value.city
      && d.listingType == LS.GetByID(db, t.listingId).value.listingType
      && d.listingTitle == LS.GetByID(db, t.listingId).value.title
      && d.listingDescription == LS.GetByID(db, t.listingId).value.description
      && d.listingCity == LS.GetByID(db, t.listingId).value.city
      && d.listingCountry == LS.GetByID(db, t.listingId).value.country
      && d.transactionPrice == t.price && d.transactionCurrency == t.currencyCode
      && d.jobStartDate == t.jobStartDate && d.jobEndDate == t.jobEndDate && d.dateCreated == t.dateCreated
      && d.detailsFromOffering == t.detailsFromOffering && d.detailsFromOffered == t.detailsFromOffered
  {
  }
}
