# Marketplace backend: services, handlers and token middleware

A Dafny model of the Go backend of a marketplace where users post listings
(offers and requests for work), agree transactions on them, upload listing
images and generate bilingual contracts. The model covers:

- `ListingService` and `TransactionService`: every query is a filter
  (the date queries add a sort) over an immutable table. `Create`,
  `Update` and `Delete` return the next database with the error the Go
  method returns. A database `fault` stands for a driver that fails every
  statement with the same error, so each "could not …" branch can be
  reached.
- The listing, transaction and image handlers. Each is a pure function
  from the request (path parameters, the token user id, the decoded body)
  and the database to an event log and the database after. The log holds
  `http.Error`, `WriteHeader`, body writes and service calls.
  `Http.EffectiveStatus` is the status the client receives: that of the
  first event that puts a header on the wire. A later `http.Error` only
  appends text.
- `AuthMiddleware`: the `Bearer ` prefix, the HMAC-only algorithm gate and
  the user id placed in the request context.
- `ReverseGeocode` after the HTTP exchange: the error cases, the city
  fallback through village, town, suburb and state, and the country
  passed through unchanged.
- The parts of Go's standard library whose details matter: `strconv.Atoi`
  with 64-bit range, `strings.TrimPrefix`, `strings.ToLower` and
  `filepath.Ext`.

Everything outside the process is a parameter:

- the geocoder's reply;
- the JWT parser;
- the sphere distance;
- the users service;
- the template renderer and the template files;
- UUIDs, file saving and the image service.

Several handlers write an `http.Error` and do not return. They are
modelled as written, and a guarded version next to each one shows the
intended behaviour (see Findings). Three further behaviours of the code
are modelled as they are:

- `GetListingByID` answers a missing row with 500 and the text
  "listing not found". Its 404 branch is reached only by a stored row
  whose id is 0.
- `GetByDistance` compares the distance strictly. A listing exactly at the
  query point is therefore excluded when the radius is 0.
- Rows come back in table order, which stands in for the order SQL leaves
  unspecified.

## Model

| member | source | states |
|---|---|---|
| Geocode.FirstNonEmpty | API/Internal/Utils/coordToCity.go:67-79 | reference rule for the city: the first non-empty candidate, and "" exactly when every candidate is empty |
| Geocode.CityIsFirstNonEmpty | API/Internal/Utils/coordToCity.go:67-79 | the nested fallback picks the first non-empty of city, village, town, suburb, state; the city is empty iff all five are |
| Geocode.ReverseGeocode | API/Internal/Utils/coordToCity.go:41-82 | a send, status, read or JSON failure gives an error with empty city and country; success iff status 200 and a parsed body; then the fallback city and the address country unchanged |
| GoStd.Atoi | API/cmd/api/listingController.go:50-54 | a parsed id came from an optional sign and digits only, fits in 64 bits, and has the sign of its text |
| GoStd.AtoiItoa | API/Internal/Services/transactionService.go:147 | parsing the decimal rendering of any 64-bit integer gives it back |
| GoStd.Itoa | API/Internal/Services/transactionService.go:147 | the `%d` rendering: a leading '-' exactly for negatives, then digits with no leading zero |
| GoStd.AtoiError | API/cmd/api/transactionController.go:154-158 | for input Atoi refuses, the quoted input followed by "value out of range" exactly where Go's digit loop overflows or the value leaves 64 bits, else "invalid syntax" |
| GoStd.AtoiAgreesWithParseInt | API/cmd/api/transactionController.go:154-158 | Atoi succeeds exactly where the left-to-right digit loop does, with its value; a failure is a range error exactly when the digit run overflows 2^64 - 1 or the well-formed value leaves 64 bits |
| GoStd.ScanReadsDigitRun | API/cmd/api/transactionController.go:154-158 | the digit loop overflows exactly when the leading digit run exceeds 2^64 - 1, else stops with a syntax error at the first non-digit or returns the run's value |
| GoStd.NinesThenJunkOverflow | API/cmd/api/transactionController.go:154-158 | twenty nines then a non-digit is refused with "value out of range" |
| GoStd.AtoiErrorJunk | API/cmd/api/transactionController.go:154-158 | "1x" is refused with "invalid syntax" |
| GoStd.AtoiAcceptsNonCanonicalForms | API/cmd/api/transactionController.go:227 | "01", "+1" and "-0" are accepted ids; "", "1_0" and " 1" are refused |
| GoStd.TrimPrefix | API/Internal/Middleware/jwt.go:26 | with the prefix present the input is prefix plus result; without it the input is returned |
| GoStd.TrimPrefixUnchangedIff | API/Internal/Middleware/jwt.go:26-30 | for a non-empty prefix, trimming changes nothing exactly when the prefix is absent |
| GoStd.ExtIsLastDotSuffix | API/cmd/api/imageController.go:45 | the extension is a suffix of the name starting at its only dot, with no separator, empty only when the final element has no dot |
| GoStd.ToLowerLowersAscii | API/cmd/api/imageController.go:45 | lower-casing leaves no upper-case ASCII letter and keeps every other ASCII character |
| GoStd.ExtOfUpper | API/cmd/api/imageController.go:45 | upper-casing a file name upper-cases its extension |
| GoStd.ToLowerIgnoresUpperCasing | API/cmd/api/imageController.go:45 | lower-casing forgets any prior ASCII upper-casing |
| GoStd.ToLowerIdempotent | API/cmd/api/imageController.go:45 | lower-casing twice is lower-casing once |
| Schema.NextListingId | API/Internal/Services/listingService.go:116-126 | the auto-increment id is positive and above every id in the table |
| Schema.NextTransactionId | API/Internal/Services/transactionService.go:100-111 | the auto-increment id is positive and above every id in the table |
| Http.FirstCommitDecides | API/cmd/api/listingController.go:124-147 | the status is that of the first header-writing event, 200 when none writes one |
| Http.CommittedPrefixDecides | API/cmd/api/listingController.go:124-147 | once a header is written, later events cannot change the status |
| Http.CallsDoNotCommit | API/cmd/api/listingController.go:140-147 | service calls before the first header leave the status to what follows |
| Http.Notice | API/cmd/api/listingController.go:124-126 | an error without return decides the status when its condition holds and invokes nothing itself |
| Middleware.TokenUser | API/cmd/api/listingController.go:122 | the two-value assertion yields an id iff the context holds an int under "token_user_id" |
| Middleware.CheckToken | API/Internal/Middleware/jwt.go:33-48 | forwarded iff the token parses, uses an HMAC algorithm and is valid; the context gains exactly the user id |
| Middleware.Authenticate | API/Internal/Middleware/jwt.go:19-51 | empty header and missing "Bearer " prefix give their 401s; otherwise the remainder is checked |
| Middleware.TokenIsRemainder | API/Internal/Middleware/jwt.go:26-30 | whatever follows one "Bearer " is the token, even empty |
| Middleware.ForwardInjectsUserId | API/Internal/Middleware/jwt.go:42-51 | a forwarded request had the prefix and a genuine HMAC token whose user id is in the context |
| Middleware.PrefixIsExact | API/Internal/Middleware/jwt.go:26-30 | the prefix is case-sensitive, needs its space, and the token is not trimmed |
| ListingService.QueryListings | API/Internal/Services/listingService.go:73-101 | a driver error gives the wrapped error; otherwise exactly the matching rows with their multiplicities |
| ListingService.QueryListingsEmpty | API/Internal/Services/listingService.go:95-98 | no matching row gives the empty list, not an error |
| ListingService.GetAll | API/Internal/Services/listingService.go:262-270 | each row of the requested type exactly as often as the table holds it (a multiset equality), or the whole table for any other type value |
| ListingService.GetByUserID | API/Internal/Services/listingService.go:273-281 | each of the user's rows passing the type filter, as often as the table holds it, and no other row (multiset) |
| ListingService.GetBySearch | API/Internal/Services/listingService.go:216-224 | each row whose title or description contains the term and that passes the type filter, as often as the table holds it, and no other row (multiset) |
| ListingService.EmptySearchIsGetAll | API/Internal/Services/listingService.go:216-224 | an empty term returns what GetAll returns |
| ListingService.NewestFirst | API/Internal/Services/listingService.go:196 | a permutation of the rows sorted by creation date, newest first |
| ListingService.GetByDateCreatedDescending | API/Internal/Services/listingService.go:194-202 | sorted newest first and a permutation of the type-filtered rows |
| ListingService.GetByDateCreatedAndSearchDescending | API/Internal/Services/listingService.go:205-213 | sorted newest first and a permutation of the searched, type-filtered rows |
| ListingService.GetByDistance | API/Internal/Services/listingService.go:227-238 | each row strictly within the radius in metres and passing the type filter, as often as the table holds it, and no other row (multiset) |
| ListingService.GetByDistanceAndSearch | API/Internal/Services/listingService.go:240-259 | each row passing the distance, type and search filters together, as often as the table holds it, and no other row (multiset) |
| ListingService.ListingAtOriginFound | API/Internal/Services/listingService.go:229-233 | a listing at the query point is returned iff the radius is positive and its type passes |
| ListingService.GetByID | API/Internal/Services/listingService.go:284-300 | the wrapped driver error; "listing not found" iff no row has the id; else a stored row with that id |
| ListingService.Delete | API/Internal/Services/listingService.go:163-179 | driver error, "listing not found" with no change, or every row with the id removed and nothing else |
| ListingService.DeleteRemovesOneRow | API/Internal/Services/listingService.go:163-179 | with unique ids a successful delete shrinks the table by one |
| ListingService.Update | API/Internal/Services/listingService.go:141-160 | a geocoding failure aborts with no write; else the six columns of rows with the id are rewritten and all else kept; no match is no error |
| ListingService.Create | API/Internal/Services/listingService.go:104-138 | geocoding or driver failure leaves the table; else one row with a fresh id, the body's fields, the store's defaults and the geocoded place is appended and returned |
| ListingService.FirstAfterFreshAppend | API/Internal/Services/listingService.go:131-135 | reading back the fresh id finds the appended row |
| ListingService.CreateKeepsIdsUnique | API/Internal/Services/listingService.go:116-126 | creating preserves unique listing ids |
| ListingService.UpdateKeepsIdsUnique | API/Internal/Services/listingService.go:149-153 | updating preserves unique listing ids |
| TransactionService.QueryTransactions | API/Internal/Services/transactionService.go:70-96 | a driver error gives the wrapped error; otherwise exactly the matching rows with their multiplicities |
| TransactionService.QueryTransactionsEmpty | API/Internal/Services/transactionService.go:92-94 | no matching row gives the empty list |
| TransactionService.GetByID | API/Internal/Services/transactionService.go:119-130 | double-wrapped driver error; "transaction not found" iff no row has the id; else the first such row |
| TransactionService.ByColumnAndStatus | API/Internal/Services/transactionService.go:137-144 | the rows with the column value, narrowed by a recognised status only |
| TransactionService.StatusNarrowsAnyStatus | API/Internal/Services/transactionService.go:137-144 | a recognised status returns the any-status rows carrying it, in order |
| TransactionService.GetByOfferedUserAndStatus | API/Internal/Services/transactionService.go:132-150 | the offered user's rows under the loose status filter, each as often as the table holds it (multiset); the error names id and quoted status |
| TransactionService.GetByOfferingUserAndStatus | API/Internal/Services/transactionService.go:152-170 | the offering user's rows under the loose status filter, each as often as the table holds it (multiset); the error names id and quoted status |
| TransactionService.GetByListingAndStatus | API/Internal/Services/transactionService.go:172-191 | the listing's rows under the loose status filter, each as often as the table holds it (multiset); the error omits the status |
| TransactionService.Create | API/Internal/Services/transactionService.go:98-117 | appends one row with a fresh id, the eight inserted columns and the store's defaults, and returns the zero transaction |
| TransactionService.CreatedRowOnlyReachableById | API/Internal/Services/transactionService.go:111-116 | the stored row reads back by its fresh id but the returned value has id 0 and differs from it |
| TransactionService.Update | API/Internal/Services/transactionService.go:212-244 | rows with the id get all ten columns from the body, keeping id and date; others unchanged; no match is no error |
| TransactionService.UpdateMissingIdIsNoOp | API/Internal/Services/transactionService.go:212-244 | updating an absent id succeeds and changes nothing |
| TransactionService.UpdateThenGetByID | API/Internal/Services/transactionService.go:212-244 | after an update the id reads back as the rewritten row |
| TransactionService.Delete | API/Internal/Services/transactionService.go:193-210 | driver error, "no transaction found to delete" with no change, or every row with the id removed and nothing else |
| TransactionService.DeleteThenNotFound | API/Internal/Services/transactionService.go:193-210 | after a successful delete the id reads as not found |
| TransactionService.DeleteRemovesOneRow | API/Internal/Services/transactionService.go:193-210 | with unique ids a successful delete shrinks the table by one |
| TransactionService.CreateIn | API/Internal/Services/transactionService.go:100-108 | an INSERT naming a currency column the table lacks fails with no row stored; otherwise it is Create |
| TransactionService.UpdateIn | API/Internal/Services/transactionService.go:213-242 | an UPDATE naming a currency column the table lacks fails with no change; otherwise it is Update |
| TransactionService.CurrencyColumnsClash | API/Internal/Services/transactionService.go:80-105 | as written, on any healthy table either the INSERT or the UPDATE fails |
| TransactionService.CurrencyColumnsAgree | API/Internal/Services/transactionService.go:213-242 | with both statements naming `currency_code` both succeed as Create and Update |
| TransactionService.CreateKeepsIdsUnique | API/Internal/Services/transactionService.go:100-105 | creating preserves unique transaction ids |
| TransactionService.UpdateKeepsIdsUnique | API/Internal/Services/transactionService.go:213-224 | updating preserves unique transaction ids |
| ListingHandlers.GetListingByID | API/cmd/api/listingController.go:47-73 | 400 for a bad id; a driver fault is a 500 with the wrapped error; a missing row is a 500 "listing not found"; 404 iff the found row has id 0; 200 with the row otherwise |
| ListingHandlers.NoTokenNotice | API/cmd/api/listingController.go:168-172 | the status is 401 exactly when the token holds no user id |
| ListingHandlers.RunCreate | API/cmd/api/listingController.go:139-151 | 201 iff the service creates the row; the database is the service's |
| ListingHandlers.CreateListing | API/cmd/api/listingController.go:119-152 | as written: 201 iff token, decoded body naming the token user and a successful insert; any decoded body is inserted |
| ListingHandlers.CreateListingForAnotherUser | API/cmd/api/listingController.go:135-140 | a body naming another user gets 401 yet a row owned by that user is stored |
| ListingHandlers.CreateListingGuarded | API/cmd/api/listingController.go:119-152 | with returns after the 401s, new rows and inserts belong to the token user only |
| ListingHandlers.RunUpdate | API/cmd/api/listingController.go:192-207 | 400 "Invalid input" for a bad body; else the service update, 200 iff it succeeds |
| ListingHandlers.UpdateListing | API/cmd/api/listingController.go:165-208 | as written: a bad id or a failed lookup gives 400 "Invalid listing ID" (after the 401 when the token is missing) with no change; 200 iff token, owner, decoded body and a successful update; any stored row is updated |
| ListingHandlers.UpdateListingOwnershipBypass | API/cmd/api/listingController.go:188-200 | a non-owner gets 401 yet the row takes the request's title |
| ListingHandlers.UpdateListingGuarded | API/cmd/api/listingController.go:165-208 | with returns after the 401s, only the owner's request changes or updates a row |
| ListingHandlers.RunDelete | API/cmd/api/listingController.go:245-252 | 204 iff the service delete succeeds; only that id is deleted |
| ListingHandlers.DeleteListing | API/cmd/api/listingController.go:220-253 | as written: a bad id gives 400; a failed lookup gives 400 "Invalid listing ID" (after the 401 when the token is missing) with no change; 204 iff token and owner; any stored row is deleted |
| ListingHandlers.DeleteListingOwnershipBypass | API/cmd/api/listingController.go:241-246 | a non-owner gets 401 yet the row is gone |
| ListingHandlers.DeleteListingGuarded | API/cmd/api/listingController.go:220-253 | with returns after the 401s, only the owner's request deletes |
| ListingHandlers.GetByIDFindsTheRow | API/Internal/Services/listingService.go:284-298 | with unique ids the lookup returns the one row carrying the id |
| ListingHandlers.DeleteLeavesNoRow | API/Internal/Services/listingService.go:163-179 | after a delete of an existing id no row carries it |
| TransactionHandlers.CreateTransaction | API/cmd/api/transactionController.go:25-60 | 201 with the zero transaction iff token, body naming the token user as offered user, and no driver error; inserts only such bodies |
| TransactionHandlers.CreateTransactionWithoutToken | API/cmd/api/transactionController.go:31-48 | without a token a body with offered user 0 is inserted under a 401 |
| TransactionHandlers.FaultIsNotNotFound | API/Internal/Services/transactionService.go:119-128 | a driver error never reads as "transaction not found" |
| TransactionHandlers.GetTransactionByID | API/cmd/api/transactionController.go:73-99 | a bad id is answered with exactly 400 "Invalid transaction ID" and no service call; 400, 404, 500 and 200 partition requests by id syntax, row presence and fault; 200 writes a stored row with the id |
| TransactionHandlers.GetTransactionsByOfferedUserAndStatus | API/cmd/api/transactionController.go:112-136 | 400 "Invalid user ID"; 200 iff id parses and no fault, writing the service's rows: each matching row as often as the table holds it (multiset) |
| TransactionHandlers.GetTransactionsByOfferingUserAndStatus | API/cmd/api/transactionController.go:149-173 | 400 with the parse error; 200 iff id parses and no fault, writing the service's rows: each matching row as often as the table holds it (multiset) |
| TransactionHandlers.GetTransactionsByListingAndStatus | API/cmd/api/transactionController.go:186-210 | 400 "Invalid listing ID"; 200 iff id parses and no fault, writing the service's rows: each matching row as often as the table holds it (multiset) |
| TransactionHandlers.RunUpdate | API/cmd/api/transactionController.go:248-256 | 204 iff no driver error; only this id and body are written |
| TransactionHandlers.UpdateTransaction | API/cmd/api/transactionController.go:224-257 | as written: 204 iff id, body and token parse, the body's offered user is the token user and no fault |
| TransactionHandlers.UpdateTransactionHijack | API/cmd/api/transactionController.go:241-249 | a user party to nothing rewrites a stored transaction and becomes its offered user |
| TransactionHandlers.LookupFailed | API/cmd/api/transactionController.go:288-296 | a failed lookup answers 404 for the not-found error and 500 for any other, invoking nothing |
| TransactionHandlers.UpdateStored | API/cmd/api/transactionController.go:287-301 | 404 iff the row is missing; 204 iff the stored row's offered user is the caller |
| TransactionHandlers.UpdateTransactionGuarded | API/cmd/api/transactionController.go:224-257 | updates reach only rows whose stored offered user is the caller, who stays offered user |
| TransactionHandlers.RunDelete | API/cmd/api/transactionController.go:303-311 | 204 iff the service delete succeeds; only this id is deleted |
| TransactionHandlers.DeleteStored | API/cmd/api/transactionController.go:287-301 | 404 iff the row is missing; 204 iff the caller is a party to the stored row |
| TransactionHandlers.DeleteFound | API/cmd/api/transactionController.go:298-311 | a found row is deleted with 204 iff the caller is a party, else 401 |
| TransactionHandlers.FoundIsDeletable | API/Internal/Services/transactionService.go:193-209 | a row the lookup finds is one the delete removes without error |
| TransactionHandlers.DeleteTransaction | API/cmd/api/transactionController.go:271-312 | 404 iff token and no row; 204 iff token and the caller is a party to the stored row; only such deletes run |
| TransactionHandlers.DeleteTransactionByParty | API/cmd/api/transactionController.go:271-312 | a party's delete gets 204, the id then reads as not found, and one row is gone |
| TransactionHandlers.GetByIDFindsTheRow | API/Internal/Services/transactionService.go:119-130 | with unique ids the lookup returns the one row carrying the id |
| TransactionHandlers.ContractDataOf | API/cmd/api/transactionController.go:357-380 | the offering user fills the tradesman fields and the offered user the client fields, each located by country with the city as detail; the listing and transaction fields come from the listing and the transaction |
| TransactionHandlers.RenderBoth | API/cmd/api/transactionController.go:382-408 | 200 or 500; 200 iff both renderings succeed, then the data and both texts are written |
| TransactionHandlers.Assemble | API/cmd/api/transactionController.go:331-408 | 200 or 500; a failed transaction lookup is a 500 with its error; 200 iff transaction, listing and both users are found and both renderings succeed |
| TransactionHandlers.CreateTransactionContract | API/cmd/api/transactionController.go:314-409 | 200, 400 or 500; 400 for a bad id or a failed Arabic read; 200 iff the rest assembles, with the English template empty when its read failed |
| TransactionHandlers.EnglishReadErrorIgnored | API/cmd/api/transactionController.go:324-329 | a failed English read still serves 200 with the empty template rendered |
| TransactionHandlers.CreateTransactionContractChecked | API/cmd/api/transactionController.go:323-329 | with both reads checked, 200 iff both templates were read and the contract assembles |
| TransactionHandlers.ContractParties | API/cmd/api/transactionController.go:357-380 | the tradesman is the transaction's offering user and the client its offered user, with country and city; the listing fields are the stored listing's; price, currency, dates and details are the transaction's |
| ImageHandlers.AcceptanceIgnoresCase | API/cmd/api/imageController.go:35-46 | upper-casing a file name changes neither its stored extension nor its acceptance |
| ImageHandlers.ListingGate | API/cmd/api/imageController.go:58-76 | passes iff the id parses and is 0 or owned by the user; 401 iff another user owns it |
| ImageHandlers.Process | API/cmd/api/imageController.go:45-91 | a file goes through iff every step succeeds; a failed file commits an error and invokes only its own checked save or record |
| ImageHandlers.LoopStatus | API/cmd/api/imageController.go:43-96 | the status is 200 iff there is no file or the first one goes through |
| ImageHandlers.LoopCalls | API/cmd/api/imageController.go:43-93 | every invoked operation belongs to a file whose predecessors all went through |
| ImageHandlers.LoopAllSaved | API/cmd/api/imageController.go:43-93 | when every file goes through each one is saved |
| ImageHandlers.LoopAllEnds | API/cmd/api/imageController.go:95-96 | when every file goes through the response ends with the 200 summary |
| ImageHandlers.CreateImage | API/cmd/api/imageController.go:20-97 | 401 without token; 400 for a bad form; exactly 400 "Invalid file type: " + name when the first file's type is disallowed; 200 iff no files or the first file goes through |
| ImageHandlers.LoopStopsAt | API/cmd/api/imageController.go:43-92 | when a turn fails, every earlier turn's save and record were invoked and the response ends with the failed turn's events |
| ImageHandlers.UploadedBeforeRejection | API/cmd/api/imageController.go:43-92 | at the first file that does not go through: every earlier file was saved and recorded for the token user and checked listing, status is 200 iff some file went first, no later file is saved, and a disallowed type ends the response with its 400 text |
| ImageHandlers.LaterNotSaved | API/cmd/api/imageController.go:43-92 | no file after the first failing one is saved |
| ImageHandlers.RanTurn | API/cmd/api/imageController.go:45-89 | an invoked operation is the save or record of a file that, with all before it, passed the extension check, after the listing check |
| ImageHandlers.TurnRan | API/cmd/api/imageController.go:45-89 | an operation a file's turn invoked is that file's save or record, after its extension and listing checks passed |
| ImageHandlers.DonePassedCheck | API/cmd/api/imageController.go:45-48 | every file before a turn that ran passed the extension check |
| ImageHandlers.UploadSavesOnlyChecked | API/cmd/api/imageController.go:43-89 | saves use the UUID name and lower-cased extension of checked files; records carry the token user and checked listing |
| ImageHandlers.ForeignListingSavesNothing | API/cmd/api/imageController.go:65-75 | for another user's listing nothing is saved, and a well-typed first file gets 401 |
| ImageHandlers.AllFilesSaved | API/cmd/api/imageController.go:78-96 | when every file goes through every one is saved and the summary ends the response |
| ImageHandlers.RejectedAfterUploadStill200 | API/cmd/api/imageController.go:46-48 | a bad file after a good one leaves status 200 with the 400 text in the body |
| ImageHandlers.NoFilesSkipsListingCheck | API/cmd/api/imageController.go:43-96 | with no files any listing id gets the summary and 200 |
| ImageHandlers.ParseShowOnProfile | API/cmd/api/imageController.go:287-300 | accepted iff Atoi gives 0 or 1, and true iff it gives 1 |
| ImageHandlers.ShowOnProfileForms | API/cmd/api/imageController.go:288-292 | "01", "+1" and "-0" are accepted; "2", "" and "true" are refused |
| ImageHandlers.UpdateImage | API/cmd/api/imageController.go:277-312 | the two 400s; the service is called iff both parameters parse; 200 iff it then succeeds |

## Left out

- The list handlers of listingController.go (`GetAllListings`, `GetListingsByUserID`, `GetListingsBySearch`, `GetListingsByDistance`, `GetListingsByDistanceAndSearch`, `GetListingsByDate`, `GetListingsByDateAndSearch`) are not part of this model: they parse their parameters and forward to the modelled service queries.
- `GetImageByID`, `createZip`, the `GetImagesBy…` handlers and `DeleteImage` are not part of this model. They stream files and zip archives.
- The image service (`AddImage`, `UpdateImage`), `Utils.SaveFile`, `uuid.New` and the users service are parameters. Their code is not part of this model.
- `GenerateContract` (Go `text/template` execution) and the reads of the two template files are parameters.
- Geocode.ReverseGeocode: the HTTP request, the one-second ticker and the API key are not modelled. The exchange's outcome is an input.
- `ST_Distance_Sphere` is a parameter, and coordinates and prices are reals. Float64 rounding, including that of `maxDistance *= 1000`, is not modelled.
- SQL `LIKE '%term%'` is modelled as case-sensitive literal substring containment, and the `type = ?` and `status = ?` filters as exact string equality. MySQL's case-insensitive collation, which makes `=` ignore case as well, and the `%` and `_` wildcards inside the term are left out.
- Driver errors: one `fault` stands for every failing statement. The scan, iteration, `LastInsertId` and `RowsAffected` errors are not separately reachable.
- `SELECT *` is assumed to yield the columns in the order the scans expect. `Create` and `Update` are modelled as if the INSERT and the UPDATE named the same currency column. With the names as written one of them always fails (see Findings).
- Errors from `json.Encoder.Encode` after a header has been written are not modelled. They could only append text.
- The multipart form's 10 MB limit and its parsing are left out. The form is parsed or fails with an error text. Its files are taken in a fixed order, whereas Go walks the form's map in random order.
- A request body with no location makes `Listing.Location.Lat()` dereference a nil pointer. That panic is not modelled: a decoded body always has a location.
- `createTransaction` keeps going after its missing-token 401. Behind `AuthMiddleware` every request carries a token, so this path is unreachable in the deployed routes. It is modelled as written (`CreateTransactionWithoutToken`) and not listed as a finding.
- GoStd.Quote: `%q` escaping of quotes, backslashes and unprintable runes is not modelled. The string is only wrapped in double quotes.
- GoStd.ToLower: only the runes whose lower case is ASCII are lowered. Other runes are kept, which cannot change whether an extension is on the ASCII allow-list.
- GoStd.AtoiError: the error text assumes the `strconv.NumError` formatting with `Quote`'s simplification. `ParseInt` stands for both of `Atoi`'s paths; the short-input fast path is not modelled separately, since it cannot overflow and refuses the same input with a syntax error.
- ImageHandlers.Process: the listing lookup behind the ownership check is not logged as a `ListingGet` call. It reads the table and changes nothing.

## Findings

| source | as written | input that shows it | evidently intended | confidence | as-written member | corrected member |
|---|---|---|---|---|---|---|
| API/cmd/api/listingController.go:135-140 | a body naming another user gets 401 but no return, so the listing is created | token user 1, body with user_id 2, geocoder and database healthy | stop after the 401 | high, not executed | ListingHandlers.CreateListingForAnotherUser | ListingHandlers.CreateListingGuarded |
| API/cmd/api/listingController.go:188-200 | a non-owner gets 401 but no return, so the update runs | token user 1, listing 5 owned by user 2, valid body | stop after the 401 | high, not executed | ListingHandlers.UpdateListingOwnershipBypass | ListingHandlers.UpdateListingGuarded |
| API/cmd/api/listingController.go:241-246 | a non-owner gets 401 but no return, so the delete runs | token user 1, listing 5 owned by user 2 | stop after the 401 | high, not executed | ListingHandlers.DeleteListingOwnershipBypass | ListingHandlers.DeleteListingGuarded |
| API/cmd/api/transactionController.go:241-249 | the caller is checked against the offered user named in the request body, not the stored row | token user 3, transaction 7 between users 1 and 2, body with user_offered_id 3 | check the stored row, as deleteTransaction does | medium, not executed | TransactionHandlers.UpdateTransactionHijack | TransactionHandlers.UpdateTransactionGuarded |
| API/Internal/Services/transactionService.go:100-102 | the INSERT names column `currency`, the UPDATE `currency_code`, and the twelve-column scan has room for one of them | any table the scan reads, healthy database, one create and one update | one column name in both statements | medium, not executed | TransactionService.CurrencyColumnsClash | TransactionService.CurrencyColumnsAgree |
| API/cmd/api/transactionController.go:324-329 | the Arabic read overwrites the English read's error, so a missing English template is never reported | English template file missing, Arabic template present | report either read failure | high, not executed | TransactionHandlers.EnglishReadErrorIgnored | TransactionHandlers.CreateTransactionContractChecked |
