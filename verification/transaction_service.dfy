/** `Services.TransactionService`: lookups and the three per-column status
    queries are filters over the transactions table; Create, Update and
    Delete produce the next database and the error the Go method returns. */
module TransactionService {
  import opened Wrappers
  import opened GoStd
  import opened Schema
  import opened Seqs

  /** The three values the status filter recognises. */
  predicate IsStatus(status: string) {
    status == "Pending" || status == "Accepted" || status == "Completed"
  }

  /** The loose status filter: a recognised value must match the row's
      status; any other value (lower-case "pending" included) applies no
      restriction. */
  predicate StatusFilter(status: string, t: Transaction) {
    IsStatus(status) ==> t.status == status
  }

  /** `queryTransaction`: run a WHERE predicate over the table. On success
      the result is a sequence (possibly empty, never absent) holding each
      matching row as many times as the table does and nothing else. */
  function QueryTransactions(db: Db, keep: Transaction -> bool): (r: Result<seq<Transaction>, string>)
    ensures r.Failure? <==> db.fault.Some?
    ensures r.Failure? ==> r.error == "could not retrieve transaction: " + db.fault.value
    ensures r.Success? ==> forall t :: multiset(r.value)[t] == if keep(t) then multiset(db.transactions)[t] else 0
    ensures r.Success? ==> forall t :: t in r.value <==> t in db.transactions && keep(t)
  {
    if db.fault.Some? then Failure("could not retrieve transaction: " + db.fault.value)
    else
      FilterCount(db.transactions, keep);
      Success(Filter(db.transactions, keep))
  }

  /** Zero matching rows give the empty sequence. */
  lemma QueryTransactionsEmpty(db: Db, keep: Transaction -> bool)
    requires db.fault.None?
    requires forall t :: t in db.transactions ==> !keep(t)
    ensures QueryTransactions(db, keep) == Success([])
  {
    FilterNone(db.transactions, keep);
  }

  /** The WHERE predicate `transaction_id = ?`. */
  function WithId(id: int): Transaction -> bool {
    (t: Transaction) => t.transactionId == id
  }

  /** `GetByID`: the first row in table order with that id, the error
      "transaction not found" when there is none, or the wrapped driver
      error. */
  function GetByID(db: Db, id: int): (r: Result<Transaction, string>)
    ensures db.fault.Some? ==>
      r == Failure("could not retrieve transaction by ID: " + ("could not retrieve transaction: " + db.fault.value))
    ensures db.fault.None? ==> (r.Failure? <==> forall t :: t in db.transactions ==> t.transactionId != id)
    ensures db.fault.None? && r.Failure? ==> r.error == "transaction not found"
    ensures r.Success? ==> r.value.transactionId == id
    ensures r.Success? ==>
      exists i ::
        && 0 <= i < |db.transactions| && db.transactions[i] == r.value
        && forall j :: 0 <= j < i ==> db.transactions[j].transactionId != id
  {
    var q := QueryTransactions(db, WithId(id));
    if q.Failure? then Failure("could not retrieve transaction by ID: " + q.error)
    else if |q.value| == 0 then
      assert forall t :: t in db.transactions ==> !WithId(id)(t);
      Failure("transaction not found")
    else
      FilterFirst(db.transactions, WithId(id));
      Success(q.value[0])
  }

  /** The rows with a column equal to a value, narrowed by the loose status
      filter: the shared shape of the three `GetBy…AndStatus` queries, which
      issue a different statement for a recognised status. */
  function ByColumnAndStatus(db: Db, column: Transaction -> int, value: int, status: string)
    : (r: Result<seq<Transaction>, string>)
    ensures r.Failure? <==> db.fault.Some?
    ensures r.Failure? ==> r.error == "could not retrieve transaction: " + db.fault.value
    ensures r.Success? ==>
      forall t :: multiset(r.value)[t] == if column(t) == value && StatusFilter(status, t) then multiset(db.transactions)[t] else 0
    ensures r.Success? ==> forall t :: t in r.value <==> t in db.transactions && column(t) == value && StatusFilter(status, t)
  {
    if IsStatus(status) then QueryTransactions(db, (t: Transaction) => column(t) == value && t.status == status)
    else QueryTransactions(db, (t: Transaction) => column(t) == value)
  }

  /** A recognised status returns exactly the any-status rows that carry
      that status, in the same order. */
  lemma StatusNarrowsAnyStatus(db: Db, column: Transaction -> int, value: int, status: string)
    requires db.fault.None? && IsStatus(status)
    ensures ByColumnAndStatus(db, column, value, status).value ==
            Filter(ByColumnAndStatus(db, column, value, "").value, (t: Transaction) => t.status == status)
  {
    FilterFilter(db.transactions, (t: Transaction) => column(t) == value, (t: Transaction) => t.status == status,
                 (t: Transaction) => column(t) == value && t.status == status);
  }

  function OfferedUser(t: Transaction): int { t.userOfferedId }
  function OfferingUser(t: Transaction): int { t.userOfferingId }
  function OfListing(t: Transaction): int { t.listingId }

  /** `GetByOfferedUserAndStatus`. */
  function GetByOfferedUserAndStatus(db: Db, offeredUserId: int, status: string): (r: Result<seq<Transaction>, string>)
    ensures r.Failure? <==> db.fault.Some?
    ensures r.Failure? ==> r.error == "could not retrieve transactions for offered user ID " + Itoa(offeredUserId)
                                       + " with status " + Quote(status) + ": " + ("could not retrieve transaction: " + db.fault.value)
    ensures r.Success? ==>
      forall t :: multiset(r.value)[t] ==
        if t.userOfferedId == offeredUserId && StatusFilter(status, t) then multiset(db.transactions)[t] else 0
    ensures r.Success? ==> forall t :: t in r.value <==>
      t in db.transactions && t.userOfferedId == offeredUserId && StatusFilter(status, t)
  {
    var q := ByColumnAndStatus(db, OfferedUser, offeredUserId, status);
    if q.Failure? then
      Failure("could not retrieve transactions for offered user ID " + Itoa(offeredUserId) + " with status "
              + Quote(status) + ": " + q.error)
    else q
  }

  /** `GetByOfferingUserAndStatus`. */
  function GetByOfferingUserAndStatus(db: Db, offeringUserId: int, status: string): (r: Result<seq<Transaction>, string>)
    ensures r.Failure? <==> db.fault.Some?
    ensures r.Failure? ==> r.error == "could not retrieve transactions for offering user ID " + Itoa(offeringUserId)
                                       + " with status " + Quote(status) + ": " + ("could not retrieve transaction: " + db.fault.value)
    ensures r.Success? ==>
      forall t :: multiset(r.value)[t] ==
        if t.userOfferingId == offeringUserId && StatusFilter(status, t) then multiset(db.transactions)[t] else 0
    ensures r.Success? ==> forall t :: t in r.value <==>
      t in db.transactions && t.userOfferingId == offeringUserId && StatusFilter(status, t)
  {
    var q := ByColumnAndStatus(db, OfferingUser, offeringUserId, status);
    if q.Failure? then
      Failure("could not retrieve transactions for offering user ID " + Itoa(offeringUserId) + " with status "
              + Quote(status) + ": " + q.error)
    else q
  }

  /** `GetByListingAndStatus`; its error text does not mention the status. */
  function GetByListingAndStatus(db: Db, listingId: int, status: string): (r: Result<seq<Transaction>, string>)
    ensures r.Failure? <==> db.fault.Some?
    ensures r.Failure? ==> r.error == "could not retrieve transactions for listing ID " + Itoa(listingId)
                                       + ": " + ("could not retrieve transaction: " + db.fault.value)
    ensures r.Success? ==>
      forall t :: multiset(r.value)[t] ==
        if t.listingId == listingId && StatusFilter(status, t) then multiset(db.transactions)[t] else 0
    ensures r.Success? ==> forall t :: t in r.value <==>
      t in db.transactions && t.listingId == listingId && StatusFilter(status, t)
  {
    var q := ByColumnAndStatus(db, OfListing, listingId, status);
    if q.Failure? then Failure("could not retrieve transactions for listing ID " + Itoa(listingId) + ": " + q.error)
    else q
  }

  /** The values the store supplies for the columns the INSERT leaves out. */
  datatype TxDefaults = TxDefaults(dateCreated: string, status: string, detailsFromOffering: string)

  /** The next database and the result of `Create`. */
  datatype TxCreated = TxCreated(db: Db, result: Result<Transaction, string>)

  /** The row the INSERT stores: the eight columns of the statement from the
      request, a fresh id, and the store's defaults for the rest. */
  function InsertedRow(body: Transaction, id: int, defaults: TxDefaults): Transaction {
    Transaction(id, body.userOfferedId, body.userOfferingId, body.listingId, body.price, body.currencyCode,
                defaults.dateCreated, body.jobStartDate, body.jobEndDate, body.detailsFromOffered,
                defaults.detailsFromOffering, defaults.status)
  }

  /** `Create`: insert one row and return Go's zero `Transaction`, never
      the stored row. The request's id, date, offering-side details and
      status are ignored. */
  function Create(db: Db, body: Transaction, defaults: TxDefaults): (c: TxCreated)
    ensures db.fault.Some? ==> c == TxCreated(db, Failure("could not create transaction: " + db.fault.value))
    ensures db.fault.None? ==> c.result == Success(ZeroTransaction)
    ensures c.db.listings == db.listings && c.db.fault == db.fault
    ensures db.fault.None? ==>
      && |c.db.transactions| == |db.transactions| + 1
      && c.db.transactions[..|db.transactions|] == db.transactions
      && var row := c.db.transactions[|db.transactions|];
      && (forall t :: t in db.transactions ==> t.transactionId != row.transactionId)
      && row.userOfferedId == body.userOfferedId && row.userOfferingId == body.userOfferingId
      && row.listingId == body.listingId && row.price == body.price && row.currencyCode == body.currencyCode
      && row.jobStartDate == body.jobStartDate && row.jobEndDate == body.jobEndDate
      && row.detailsFromOffered == body.detailsFromOffered
      && row.dateCreated == defaults.dateCreated && row.status == defaults.status
      && row.detailsFromOffering == defaults.detailsFromOffering
  {
    if db.fault.Some? then TxCreated(db, Failure("could not create transaction: " + db.fault.value))
    else
      var row := InsertedRow(body, NextTransactionId(db.transactions), defaults);
      TxCreated(db.(transactions := db.transactions + [row]), Success(ZeroTransaction))
  }

  /** The stored row can be read back by its fresh id, but the value
      `Create` returns carries id 0, which no stored row has. */
  lemma CreatedRowOnlyReachableById(db: Db, body: Transaction, defaults: TxDefaults)
    requires db.fault.None?
    ensures var c := Create(db, body, defaults);
      && GetByID(c.db, NextTransactionId(db.transactions)) == Success(c.db.transactions[|db.transactions|])
      && c.result.value.transactionId == 0
      && c.result.value != c.db.transactions[|db.transactions|]
  {
    var c := Create(db, body, defaults);
    var id := NextTransactionId(db.transactions);
    var row := c.db.transactions[|db.transactions|];
    assert c.db.transactions == db.transactions + [row];
    FilterAppendFresh(db.transactions, row);
  }

  /** Filtering by a fresh id after an append finds only the new row. */
  lemma FilterAppendFresh(rows: seq<Transaction>, row: Transaction)
    requires forall t :: t in rows ==> t.transactionId != row.transactionId
    ensures Filter(rows + [row], WithId(row.transactionId)) == [row]
  {
    var keep := WithId(row.transactionId);
    FilterAppend(rows, [row], keep);
    FilterNone(rows, keep);
    assert Filter([row], keep) == [row] + Filter([], keep);
  }

  /** The row an UPDATE writes: all ten columns of the statement taken
      wholesale from the request; id and creation date kept. */
  function Rewrite(row: Transaction, body: Transaction): Transaction {
    body.(transactionId := row.transactionId, dateCreated := row.dateCreated)
  }

  /** `Update`: rewrite the rows with that id. Matching no row is not an
      error, only a driver fault is. */
  function Update(db: Db, id: int, body: Transaction): (m: Mutation)
    ensures db.fault.Some? ==>
      m == Mutation(db, Some("could not update transaction with ID " + Itoa(id) + ": " + db.fault.value))
    ensures m.err.None? <==> db.fault.None?
    ensures m.db.listings == db.listings && m.db.fault == db.fault
    ensures |m.db.transactions| == |db.transactions|
    ensures forall i :: 0 <= i < |db.transactions| && (m.err.Some? || db.transactions[i].transactionId != id) ==>
      m.db.transactions[i] == db.transactions[i]
    ensures forall i :: 0 <= i < |db.transactions| && m.err.None? && db.transactions[i].transactionId == id ==>
      var (old_, new_) := (db.transactions[i], m.db.transactions[i]);
      && new_.transactionId == old_.transactionId && new_.dateCreated == old_.dateCreated
      && new_.userOfferedId == body.userOfferedId && new_.userOfferingId == body.userOfferingId
      && new_.listingId == body.listingId && new_.price == body.price && new_.currencyCode == body.currencyCode
      && new_.jobStartDate == body.jobStartDate && new_.jobEndDate == body.jobEndDate
      && new_.detailsFromOffered == body.detailsFromOffered
      && new_.detailsFromOffering == body.detailsFromOffering && new_.status == body.status
  {
    if db.fault.Some? then Mutation(db, Some("could not update transaction with ID " + Itoa(id) + ": " + db.fault.value))
    else
      var rows := db.transactions;
      var rows' := seq(|rows|, i requires 0 <= i < |rows| => if rows[i].transactionId == id then Rewrite(rows[i], body) else rows[i]);
      Mutation(db.(transactions := rows'), None)
  }

  /** Updating an id that no row has succeeds and changes nothing. */
  lemma UpdateMissingIdIsNoOp(db: Db, id: int, body: Transaction)
    requires db.fault.None?
    requires forall t :: t in db.transactions ==> t.transactionId != id
    ensures Update(db, id, body) == Mutation(db, None)
  {
    var m := Update(db, id, body);
    assert forall i :: 0 <= i < |db.transactions| ==> db.transactions[i] in db.transactions;
    assert m.db.transactions == db.transactions;
  }

  /** After an update, reading the id back gives the rewritten first row. */
  lemma UpdateThenGetByID(db: Db, id: int, body: Transaction)
    requires db.fault.None?
    requires exists t :: t in db.transactions && t.transactionId == id
    ensures GetByID(Update(db, id, body).db, id) == Success(Rewrite(GetByID(db, id).value, body))
  {
    var db' := Update(db, id, body).db;
    var rows, rows' := db.transactions, db'.transactions;
    assert forall j :: 0 <= j < |rows| ==> rows'[j].transactionId == rows[j].transactionId;
    var before, after := GetByID(db, id), GetByID(db', id);
    var i := FirstIndexOf(rows, before.value, id);
    assert exists t :: t in rows' && t.transactionId == id by {
      assert rows'[i] in rows';
    }
    var k := FirstIndexOf(rows', after.value, id);
    assert k == i by {
      FirstIndexUnique(rows, rows', id, i, k);
    }
  }

  /** The position `GetByID` took its row from. */
  lemma FirstIndexOf(rows: seq<Transaction>, found: Transaction, id: int) returns (i: nat)
    requires exists i :: 0 <= i < |rows| && rows[i] == found && forall j :: 0 <= j < i ==> rows[j].transactionId != id
    ensures i < |rows| && rows[i] == found && forall j :: 0 <= j < i ==> rows[j].transactionId != id
  {
    i :| 0 <= i < |rows| && rows[i] == found && forall j :: 0 <= j < i ==> rows[j].transactionId != id;
  }

  /** Two tables with the same id column have their first row with a given
      id at the same position. */
  lemma FirstIndexUnique(rows: seq<Transaction>, rows': seq<Transaction>, id: int, i: nat, k: nat)
    requires |rows| == |rows'| && forall j :: 0 <= j < |rows| ==> rows'[j].transactionId == rows[j].transactionId
    requires i < |rows| && rows[i].transactionId == id && forall j :: 0 <= j < i ==> rows[j].transactionId != id
    requires k < |rows'| && rows'[k].transactionId == id && forall j :: 0 <= j < k ==> rows'[j].transactionId != id
    ensures i == k
  {
  }

  /** The WHERE predicate of a delete, negated: the rows that survive. */
  function NotId(id: int): Transaction -> bool {
    (t: Transaction) => t.transactionId != id
  }

  /** `Delete`: remove the rows with that id; "no transaction found to
      delete" and no change when there is none. */
  function Delete(db: Db, id: int): (m: Mutation)
    ensures db.fault.Some? ==> m == Mutation(db, Some("could not delete transaction: " + db.fault.value))
    ensures db.fault.None? && (forall t :: t in db.transactions ==> t.transactionId != id) ==>
      m == Mutation(db, Some("no transaction found to delete"))
    ensures db.fault.None? && (exists t :: t in db.transactions && t.transactionId == id) ==>
      && m.err.None?
      && m.db.listings == db.listings && m.db.fault == db.fault
      && forall t :: multiset(m.db.transactions)[t] == if t.transactionId == id then 0 else multiset(db.transactions)[t]
  {
    if db.fault.Some? then Mutation(db, Some("could not delete transaction: " + db.fault.value))
    else
      var survivors := Filter(db.transactions, NotId(id));
      FilterKeepsAllIff(db.transactions, NotId(id));
      FilterCount(db.transactions, NotId(id));
      if |survivors| == |db.transactions| then Mutation(db, Some("no transaction found to delete"))
      else Mutation(db.(transactions := survivors), None)
  }

  /** After a successful delete the id reads as not found. */
  lemma DeleteThenNotFound(db: Db, id: int)
    requires db.fault.None? && Delete(db, id).err.None?
    ensures GetByID(Delete(db, id).db, id) == Failure("transaction not found")
  {
    var m := Delete(db, id);
    forall t | t in m.db.transactions ensures t.transactionId != id {
      assert multiset(m.db.transactions)[t] > 0;
    }
  }

  /** With unique ids, a successful delete removes exactly one row. */
  lemma DeleteRemovesOneRow(db: Db, id: int)
    requires db.fault.None? && UniqueTransactionIds(db.transactions)
    requires exists t :: t in db.transactions && t.transactionId == id
    ensures |Delete(db, id).db.transactions| == |db.transactions| - 1
  {
    var i :| 0 <= i < |db.transactions| && db.transactions[i].transactionId == id;
    FilterDropsOne(db.transactions, NotId(id), i);
  }

  /** Creating keeps transaction ids unique: the new row's id is fresh. */
  lemma CreateKeepsIdsUnique(db: Db, body: Transaction, defaults: TxDefaults)
    requires UniqueTransactionIds(db.transactions)
    ensures UniqueTransactionIds(Create(db, body, defaults).db.transactions)
  {
    var c := Create(db, body, defaults);
    if db.fault.None? {
      var rows := c.db.transactions;
      forall i, j | 0 <= i < j < |rows| ensures rows[i].transactionId != rows[j].transactionId {
        if j == |db.transactions| {
          assert rows[i] == db.transactions[i];
          assert rows[i] in db.transactions;
        }
      }
    }
  }

  /** Updating keeps every row's id, and so keeps ids unique. */
  lemma UpdateKeepsIdsUnique(db: Db, id: int, body: Transaction)
    requires UniqueTransactionIds(db.transactions)
    ensures UniqueTransactionIds(Update(db, id, body).db.transactions)
  {
  }

  // ---------------------------------------------------------------------
  // The currency column

  /** The transactions table as far as the currency is concerned. The
      twelve-target scan of `queryTransaction` reads exactly one currency
      column, whose name is `currencyColumn`. */
  datatype TxTable = TxTable(currencyColumn: string)

  /** The column the INSERT of `Create` names. */
  const InsertCurrencyColumn: string := "currency"

  /** The column the UPDATE of `Update` names. */
  const UpdateCurrencyColumn: string := "currency_code"

  /** The server's answer to a statement naming a column the table lacks. */
  function UnknownColumn(name: string): string {
    "Error 1054 (42S22): Unknown column '" + name + "' in 'field list'"
  }

  /** `Create` run against a table, with the INSERT naming `column`: a
      column the table lacks fails the statement before any row is stored. */
  function CreateIn(table: TxTable, column: string, db: Db, body: Transaction, defaults: TxDefaults): (c: TxCreated)
    ensures db.fault.None? && table.currencyColumn != column ==>
      c == TxCreated(db, Failure("could not create transaction: " + UnknownColumn(column)))
    ensures db.fault.Some? || table.currencyColumn == column ==> c == Create(db, body, defaults)
  {
    if db.fault.None? && table.currencyColumn != column then
      TxCreated(db, Failure("could not create transaction: " + UnknownColumn(column)))
    else Create(db, body, defaults)
  }

  /** `Update` run against a table, with the UPDATE naming `column`. */
  function UpdateIn(table: TxTable, column: string, db: Db, id: int, body: Transaction): (m: Mutation)
    ensures db.fault.None? && table.currencyColumn != column ==>
      m == Mutation(db, Some("could not update transaction with ID " + Itoa(id) + ": " + UnknownColumn(column)))
    ensures db.fault.Some? || table.currencyColumn == column ==> m == Update(db, id, body)
  {
    if db.fault.None? && table.currencyColumn != column then
      Mutation(db, Some("could not update transaction with ID " + Itoa(id) + ": " + UnknownColumn(column)))
    else Update(db, id, body)
  }

  /** As written, the INSERT and the UPDATE name different currency
      columns, so on any table the scan can read, one of them fails: a
      healthy store either refuses every new transaction or every update. */
  lemma CurrencyColumnsClash(table: TxTable, db: Db, body: Transaction, defaults: TxDefaults, id: int, changes: Transaction)
    requires db.fault.None?
    ensures CreateIn(table, InsertCurrencyColumn, db, body, defaults).result.Failure?
         || UpdateIn(table, UpdateCurrencyColumn, db, id, changes).err.Some?
    ensures table.currencyColumn == UpdateCurrencyColumn ==>
      CreateIn(table, InsertCurrencyColumn, db, body, defaults).db == db
  {
  }

  /** With the INSERT naming `currency_code`, the column the UPDATE and the
      JSON field use, both statements succeed on that table and behave as
      `Create` and `Update` do in the rest of this model. */
  lemma CurrencyColumnsAgree(db: Db, body: Transaction, defaults: TxDefaults, id: int, changes: Transaction)
    requires db.fault.None?
    ensures var table := TxTable(UpdateCurrencyColumn);
      && CreateIn(table, UpdateCurrencyColumn, db, body, defaults) == Create(db, body, defaults)
      && CreateIn(table, UpdateCurrencyColumn, db, body, defaults).result.Success?
      && UpdateIn(table, UpdateCurrencyColumn, db, id, changes) == Update(db, id, changes)
      && UpdateIn(table, UpdateCurrencyColumn, db, id, changes).err.None?
  {
  }
}
