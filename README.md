# Storage core of a URL shortener, modelled in Dafny

The shortener stores long URLs under short decimal ids. It gives each stored id back as a link `BaseURL + "/" + id`, redirects a link to its URL, and lists the links a user (identified by a signed `userID` cookie) has created. It can also mark those links as deleted. `NewStorage` selects one of three backends through one `Repository` interface:

* **map backend** (`MapBackend.MapStorage`).
  * Three maps are updated in place:
    * `Locations`: id to URL;
    * `Users`: user to the ids it created;
    * `Deleted`: the id's deletion mark.
  * A new URL goes under `len(Locations) + 1`.
  * A URL already stored gives its existing id and `ErrExists`.
  * A URL that `url.ParseRequestURI` refuses aborts the batch with nil and `wrong url <u>`.
  * The ghost fields `Urls`/`Owners` record the store in creation order, and `Valid()` ties the maps to them (`MapModel`).
* **file backend** (`FileBackend.FileStorage`).
  * The file holds one URL per line, and the id of a URL is its line number.
  * The counter `LastID` is seeded by counting the lines at start-up.
  * `CreateShort` appends the batch in one write and then syncs.
  * `GetOriginal` seeks to the start and scans.
  * `GetURLArrayByUser` scans from wherever the file offset is (see Findings).
  * Deletion does nothing.
  * The file text is `Content` and the read offset `Pos`. Line splitting follows `bufio.ScanLines` (`Lines`).
* **database backend** (`DBBackend.DBStorage`).
  * One table of rows `(id, url, cookie, deleted)` sits in table order, with an in-memory counter `LastID`.
  * The counter is seeded with `SELECT COUNT(*)`.
  * `CreateShort` runs in one transaction:
    * each URL is looked up among the committed rows with `LIMIT 1`;
    * a URL found gives its id, and the error becomes `ErrExists`;
    * a URL not found takes the next value of the counter, which is not restored on rollback.
  * `GetOriginal` answers `ErrNotFound`, `ErrDeleted` or the URL.
  * `MarkAsDeleted` runs one update per id in one transaction.
  * `GetURLArrayByUser` gives each row's bare id (not a link) and its URL.
  * Every statement may fail, as the oracle `fails: Stmt -> bool` says (`Stmt` is an operation kind and the loop index). A failed `Begin` panics, because the deferred `Rollback` runs on a nil transaction; this is the `panicked` output.
  * `DBModel` states the whole transaction as the ghost function `Insert`, and the class methods are proved equal to it.

Consequences proved about the database backend:
* A URL repeated inside one batch gets two ids (`RepeatedInBatch`), because the lookups do not see the batch's own uncommitted rows.
* An id that took the counter but was rolled back is lost. After a restart the counter is the row count, lower than the highest id. Unless the table has a unique constraint on `id` (the schema is not part of this model), a later unrelated URL can therefore take the id of a row already stored (`RestartReusesId`), and a lookup then finds the older row. `Valid()` (`IdsBelow`) says exactly when the counter is ahead of every stored id, and `NewDBStorage` states when seeding re-establishes it.

Around the storage:
* `Handlers` models the handlers' decisions:
  * the batch answer assembly of `ShortURLs`;
  * the statuses of `RecoverOriginalURL`, `RecoverOriginalURLPost` and `RecoverAllURL`.
  * The storage reply is a parameter there, and composition lemmas feed in each backend's contract.
* `Cookie` models `CookieMiddleware`:
  * the token is the lowercase hex of HMAC-SHA256(id) followed by the 8-byte random id;
  * the HMAC is the parameter `mac` and the random source the parameter `random`.
  * a cookie set after `http.Error` is not sent to the client, because net/http fixes the headers when the status is written.
* `Configuration` models:
  * the defaults;
  * the field-wise override `ChangeByPriority`;
  * the `parseConfigs` merge order defaults, then file, then environment, then flags.

Library calls are parameters or oracles:
* `url.ParseRequestURI` is `isURI`;
* HMAC is `mac`;
* `crypto/rand` is `random`;
* the file and database operations that can fail are booleans or the `fails` oracle;
* how far the file scanner reads ahead is `stop`.

Go nil slices are `None` of an `Option`, and errors are the `Common.Error` datatype. `Common.Message` gives the texts of `err.go`.

## Model

| member | source | states |
|---|---|---|
| Common.ShortLink | internal/controller/handlers/handlers.go:275 | the link is the base URL, one "/", then the id, each part recoverable by position |
| Decimal.SprintInjective | internal/adapter/storage/use_map_db.go:56 | different counter values print as different ids |
| Decimal.SprintNoLeadingZero | internal/adapter/storage/use_file_db.go:106 | a printed id starts with '0' only for 0, so such strings are never the id of a stored line |
| Decimal.NotAnId | internal/adapter/storage/use_file_db.go:106 | a string starting with '0', such as "01", is the printed form of no positive line number |
| Decimal.IdRange | internal/adapter/storage/use_file_db.go:75-80 | a batch's ids are the consecutive counter values after the old counter |
| Configuration.ChangeByPriority | internal/config/config.go:99-108 | each field of the result is the override's field when that is non-zero and the old field otherwise; this is the named-field merge `Merge` |
| Configuration.MergeZero | internal/config/config.go:104 | an all-zero override changes nothing |
| Configuration.MergeIdempotent | internal/config/config.go:99-108 | applying the same override twice equals applying it once |
| Configuration.MergeAssociative | internal/config/config.go:93-95 | successive overrides compose into one merged override |
| Configuration.HTTPSSticky | internal/config/config.go:22 | once a source sets `EnableHTTPS`, no later source can clear it (false is the zero value) |
| Configuration.ParseConfigs | internal/config/config.go:57-96 | each field is the value of the last of defaults, file, environment and flags that set it |
| Configuration.ParseConfigsNoSources | internal/config/config.go:26-35 | with no source setting anything the result is `GetDefaultConfig()` |
| Configuration.ReflectLoop | internal/config/config.go:100-107 | the loop as written panics iff some field of the override from index j on is non-zero, and otherwise leaves the config unchanged |
| Configuration.AsWrittenPanicsUnlessZero | internal/config/config.go:101-105 | as written, `ChangeByPriority` panics for every non-zero override and changes nothing otherwise |
| Configuration.AsWrittenTestCase | internal/config/config_test.go:56-64 | the tested override of BaseURL panics as written; the corrected merge gives the asserted config |
| Configuration.AsWrittenStartupPanics | internal/config/config.go:63-67 | with no flags given, `parseConfigs` as written panics: the flag defaults are non-zero |
| MapModel.LocationsOfShape | internal/adapter/storage/use_map_db.go:56-71 | the Locations map has one entry per stored URL, id k holding the k-th URL |
| MapModel.IdsOfExact | internal/adapter/storage/use_map_db.go:71 | id k is in a user's list iff the user created the k-th URL; an unknown user has no ids |
| MapModel.IdsOfAppend | internal/adapter/storage/use_map_db.go:71 | storing a URL appends its id to its creator's list only |
| MapModel.UsersOfAppend | internal/adapter/storage/use_map_db.go:71 | the Users map after a store is the old one with the creator's list extended |
| MapModel.UsersOfSize | internal/adapter/storage/use_map_db.go:130 | the number of users is the number of distinct creators |
| MapModel.StoreNew | internal/adapter/storage/use_map_db.go:56-71 | storing a new URL keeps URLs distinct, maps the next id to it and extends the creator's list |
| MapModel.IndexOf | internal/adapter/storage/use_map_db.go:58-64 | the position found holds the URL and is its first occurrence |
| MapModel.RunStops | internal/adapter/storage/use_map_db.go:51-53 | once a URL is refused, the rest of the batch changes nothing |
| MapModel.RunKeepsStore | internal/adapter/storage/use_map_db.go:50-72 | the batch keeps the store distinct and only extends it, new entries owned by the caller; without abort there is one id per URL |
| MapModel.RunIdsResolve | internal/adapter/storage/use_map_db.go:50-73 | without abort, there is one id per URL and id j maps to URL j in the new Locations |
| MapModel.RunFresh | internal/adapter/storage/use_map_db.go:56-71 | distinct valid new URLs are appended and get consecutive ids, with no `ErrExists` |
| MapModel.EmptyStoreBatch | internal/adapter/storage/use_map_db.go:43-74 | on an empty store a valid distinct batch gets ids 1..n with no error, the stored URLs are the batch, and id k maps to the k-th URL |
| MapModel.RunExists | internal/adapter/storage/use_map_db.go:58-64 | without abort, the error is `ErrExists` iff some URL was stored before or repeats an earlier one in the batch |
| MapModel.RunStoresBatch | internal/adapter/storage/use_map_db.go:58-71 | without abort, every URL of the batch is stored afterwards, new or known |
| MapModel.RunUrls | internal/adapter/storage/use_map_db.go:71 | without abort, the stored URLs are exactly the old ones and the batch's |
| MapModel.RunAbort | internal/adapter/storage/use_map_db.go:51-53 | the first refused URL aborts with nil and `wrong url <u>`, the store as after the valid prefix |
| MapModel.NoAbortBefore | internal/adapter/storage/use_map_db.go:51-53 | a batch of valid URLs never aborts |
| MapBackend.MapStorage.constructor | internal/adapter/storage/use_map_db.go:22-30 | the store is valid and empty |
| MapBackend.MapStorage.FindURL | internal/adapter/storage/use_map_db.go:58-65 | the scan finds the URL iff it is stored, with its id |
| MapBackend.MapStorage.CreateShort | internal/adapter/storage/use_map_db.go:43-74 | the reply and the new store are those of `CreateRun`; every returned id maps to its URL; deletion marks unchanged |
| MapBackend.MapStorage.StoreAll | internal/adapter/storage/use_map_db.go:50-72 | the loop over the batch leaves the store, ids, `ErrExists` mark and refused URL that `CreateRun` gives, keeping `Valid()` |
| MapBackend.MapStorage.Shorten | internal/adapter/storage/use_map_db.go:55-71 | a known URL keeps the store and gives its id; a new one is stored under the next id |
| MapBackend.MapStorage.Store | internal/adapter/storage/use_map_db.go:71 | appends the URL and its creator and returns the new id, keeping `Valid()` |
| MapBackend.MapStorage.GetOriginal | internal/adapter/storage/use_map_db.go:77-90 | a stored id gives its URL (with `ErrDeleted` iff marked); any other id gives "" and `ErrNotFound` |
| MapBackend.MapStorage.Owns | internal/adapter/storage/use_map_db.go:98-103 | the inner loop finds the id iff the user created it |
| MapBackend.MapStorage.MarksAfter | internal/adapter/storage/use_map_db.go:97-104 | the new marks are the old ones plus every listed id the user created |
| MapBackend.MapStorage.MarkAsDeleted | internal/adapter/storage/use_map_db.go:93-106 | marks exactly the listed ids the user created, never fails |
| MapBackend.MapStorage.GetURLArrayByUser | internal/adapter/storage/use_map_db.go:109-124 | never nil and never fails; one link per id the user created, in creation order, with its URL |
| MapBackend.MapStorage.GetStatistic | internal/adapter/storage/use_map_db.go:127-132 | counts the stored URLs and the distinct creators, never fails |
| Lines.LineEnd | internal/adapter/storage/use_file_db.go:51 | the end of the first line: the first newline or the end of the text |
| Lines.Consumed | internal/adapter/storage/use_file_db.go:103 | how much of the file k scanned lines take, zero for none |
| Lines.Join | internal/adapter/storage/use_file_db.go:75-78 | the batch text ends at a line start |
| Lines.LinesOfAppend | internal/adapter/storage/use_file_db.go:82 | appending text at a line start appends its lines |
| Lines.LinesOfLine | internal/adapter/storage/use_file_db.go:76-77 | a one-line URL followed by a newline is one line |
| Lines.LinesOfJoin | internal/adapter/storage/use_file_db.go:75-78 | the lines of the batch text are the batch's URLs |
| FileBackend.FindHit | internal/adapter/storage/use_file_db.go:101-108 | the scan for id k finds line k with no error |
| FileBackend.FindMiss | internal/adapter/storage/use_file_db.go:101-111 | the scan either finds a line or gives "" and `ErrNotFound`, the latter iff no line number prints as the id |
| FileBackend.StoreRoundTrip | internal/adapter/storage/use_file_db.go:65-112 | after a batch is appended, `GetOriginal` of the j-th new id finds the j-th URL |
| FileBackend.AppendLines | internal/adapter/storage/use_file_db.go:82 | one-line URLs appended at a line start become the next lines |
| FileBackend.HistoryAtEnd | internal/adapter/storage/use_file_db.go:124-137 | a scan from the end of the file lists nothing (nil) |
| FileBackend.HistoryFromStart | internal/adapter/storage/use_file_db.go:124-137 | a scan from the start lists every line, entry j linking id j+1, whose lookup finds that line |
| FileBackend.HistoryAfterOpen | internal/adapter/storage/use_file_db.go:121-138 | on a file holding one URL line, the history read at the offset left by opening is nil, from the start it is link 1 to that URL |
| FileBackend.FileStorage.NewFileStorage | internal/adapter/storage/use_file_db.go:35-62 | empty path, open failure and scan failure give their errors; otherwise the loop counts one per scanned line, so the counter is the number of lines, and the offset is the end |
| FileBackend.FileStorage.CreateShort | internal/adapter/storage/use_file_db.go:65-92 | the counter grows by the batch size even on failure; a successful write appends the batch text; success returns the consecutive ids; the new lines are the batch |
| FileBackend.FileStorage.GetOriginal | internal/adapter/storage/use_file_db.go:95-112 | the answer is the scan from the start (`Find`); the offset is left after the found line or at the end |
| FileBackend.FileStorage.GetURLArrayByUser | internal/adapter/storage/use_file_db.go:121-138 | the history is the scan from the current offset, which is then the end; a closed file fails |
| FileBackend.FileStorage.GetURLArrayByUserFromStart | internal/adapter/storage/use_file_db.go:121-138 | with the seek to the start, the history is every line |
| FileBackend.FileStorage.Scan | internal/adapter/storage/use_file_db.go:124-135 | one entry per line read from the offset, numbered from 1 |
| DBModel.FirstMatch | internal/adapter/storage/db_operations.go:47-51 | the first row whose column holds the key, or the table length when none does |
| DBModel.FirstMatchAppend | internal/adapter/storage/db_operations.go:47-51 | rows appended after the table do not change a match found in it |
| DBModel.FirstMatchUnique | internal/adapter/storage/db_operations.go:95-99 | with unique ids, the lookup of a row's id finds that row |
| DBModel.IdsBelowNext | internal/adapter/storage/db_operations.go:69-71 | inserting under counter+1 keeps ids unique and below the new counter; the id was not taken |
| DBModel.Step | internal/adapter/storage/db_operations.go:44-75 | one URL: a known one goes through `Known`, an unknown one through `Fresh`; at most one id is added |
| DBModel.Known | internal/adapter/storage/db_operations.go:55-67 | a URL found adds its id and sets the `ErrExists` mark unless the scan or `rows.Err` fails |
| DBModel.Fresh | internal/adapter/storage/db_operations.go:68-75 | an unknown URL takes counter+1 even when the insert fails, and adds the live row of the caller |
| DBModel.RunStops | internal/adapter/storage/db_operations.go:52-73 | after the first failed statement the rest of the batch changes nothing |
| DBModel.RunShape | internal/adapter/storage/db_operations.go:44-76 | at most one id per URL, one for each without a fault; the counter grows by the inserted rows plus a failed insert; the rows are the caller's, live, under consecutive ids |
| DBModel.RunKeepsIds | internal/adapter/storage/db_operations.go:69-75 | a valid table stays valid with the pending rows added |
| DBModel.HoldsAppend | internal/adapter/storage/db_operations.go:62 | a row found stays found when rows are appended |
| DBModel.RunResolves | internal/adapter/storage/db_operations.go:44-76 | every returned id names a row holding its URL, and a new URL's row is live and the caller's |
| DBModel.ResolvesSnoc | internal/adapter/storage/db_operations.go:62-74 | the round trip extends by one URL |
| DBModel.StepResolves | internal/adapter/storage/db_operations.go:44-75 | one URL keeps the round trip and validity |
| DBModel.RunDup | internal/adapter/storage/db_operations.go:62 | the `ErrExists` mark is set iff some URL had a committed row |
| DBModel.RunKnown | internal/adapter/storage/db_operations.go:55-62 | the id returned for a known URL is that of its first committed row |
| DBModel.KnownSnoc | internal/adapter/storage/db_operations.go:62 | the known-id property extends by one URL |
| DBModel.InsertEffect | internal/adapter/storage/db_operations.go:21-84 | the counter never decreases; panic iff `Begin` fails; a commit returns one id per URL and only appends rows; any failure leaves the table and reports a medium error |
| DBModel.InsertKeepsIds | internal/adapter/storage/db_operations.go:21-84 | a valid table and counter stay valid |
| DBModel.InsertThenLookup | internal/adapter/storage/db_operations.go:21-112 | after a commit, each returned id looks up its URL or `ErrDeleted`, and a new URL's id looks up its URL |
| DBModel.LookupsResolve | internal/adapter/storage/db_operations.go:95-111 | with unique ids, every id that resolves looks up its URL or `ErrDeleted`, and a new URL's id its URL |
| DBModel.LookupHolds | internal/adapter/storage/db_operations.go:95-111 | a row holding the URL is found with it, or deleted |
| DBModel.RepeatedInBatch | internal/adapter/storage/db_operations.go:47-74 | the same URL twice in one batch is stored twice, under ids 1 and 2, with no `ErrExists` |
| DBModel.FailedInsertKeepsCount | internal/adapter/storage/db_operations.go:69-73 | a failed insert returns no id and leaves the table, but the counter has moved |
| DBModel.InsertOneFresh | internal/adapter/storage/db_operations.go:68-83 | a new URL is committed under counter+1 |
| DBModel.RestartReusesId | internal/adapter/storage/use_sql_db.go:49-51 | after a lost id and a restart, a new URL is committed under an id already stored, and the lookup finds the older row |
| DBModel.Lookup | internal/adapter/storage/db_operations.go:95-111 | only nil, `ErrNotFound` or `ErrDeleted`; an error gives ""; `ErrNotFound` iff no row has the id; with unique ids each row with the id decides the answer |
| DBModel.Update | internal/adapter/storage/db_operations.go:128 | the update marks the rows whose id and cookie match and leaves the rest |
| DBModel.Marked | internal/adapter/storage/db_operations.go:134-138 | each row is marked iff it was already, or it is the user's and its id is listed |
| DBModel.MarkedIdempotent | internal/adapter/storage/db_operations.go:115-145 | deleting twice is deleting once; other users' rows are untouched |
| DBModel.MarkedKeepsIds | internal/adapter/storage/db_operations.go:115-145 | marking keeps the table valid |
| DBModel.OwnedRows | internal/adapter/storage/db_operations.go:154-158 | the user's rows as id and URL, never more than the table |
| DBModel.OwnedRowsExact | internal/adapter/storage/db_operations.go:154-181 | an entry is listed iff some row of the user has that id and URL |
| DBModel.FirstFault | internal/adapter/storage/db_operations.go:166-185 | the first row at which `rows.Next`/`rows.Err` or the scan fails |
| DBModel.Appended | internal/adapter/storage/db_operations.go:149-181 | appending to a nil slice gives nil iff nothing was appended |
| DBModel.Listing | internal/adapter/storage/db_operations.go:166-188 | no error means every row was read; an error is a scan or rows error; the history is a prefix of the rows |
| DBModel.ListingNoFaults | internal/adapter/storage/db_operations.go:148-189 | without faults the history is all of the user's rows, nil iff the user has none |
| DBBackend.DBStorage.NewDBStorage | internal/adapter/storage/use_sql_db.go:30-65 | open and count failures give their errors; otherwise the counter is the row count, valid iff no stored id exceeds it |
| DBBackend.DBStorage.CreateShort | internal/adapter/storage/db_operations.go:21-84 | ids, error, panic, new table and counter are those of `Insert`, and validity is kept |
| DBBackend.DBStorage.Shorten | internal/adapter/storage/db_operations.go:44-76 | the loop's pending rows, counter, ids, mark and fault are those of `Run` |
| DBBackend.DBStorage.LookupOrInsert | internal/adapter/storage/db_operations.go:45-75 | one turn of the loop is `Step` |
| DBBackend.DBStorage.GetOriginal | internal/adapter/storage/db_operations.go:87-112 | a failed query gives "" and its error; otherwise only nil, `ErrNotFound` (iff no row) or `ErrDeleted` (for a deleted row) |
| DBBackend.DBStorage.MarkAsDeleted | internal/adapter/storage/db_operations.go:115-145 | panic iff `Begin` fails; success iff no statement fails, and then the table is `Marked`; any failure leaves it |
| DBBackend.DBStorage.GetURLArrayByUser | internal/adapter/storage/db_operations.go:148-189 | a failed query gives nil and its error; otherwise the `Listing` of the user's rows |
| Repository.Select | internal/adapter/storage/repository.go:22-30 | file iff a storage path is set; database iff no path but a DSN; map iff neither |
| Repository.SelectMerged | internal/adapter/storage/repository.go:22-30 | after the merge, a path from any source selects the file backend; no path and no DSN from any source selects the map backend |
| Repository.NewStorage | internal/adapter/storage/repository.go:22-30 | the selected constructor's storage and error are returned unchanged, with their contracts |
| Repository.MapReplyComplete | internal/adapter/storage/use_map_db.go:43-74 | the map backend's reply has one id per URL whenever the error is nil or `ErrExists` |
| Repository.DBReplyComplete | internal/adapter/storage/db_operations.go:21-84 | so does the database backend's |
| Handlers.ShortURLs | internal/controller/handlers/handlers.go:259-280 | the storage sees the batch's URLs in order; another error gives nil and that error; a reply shorter than the batch panics; otherwise entry i has its correlation id and the link of id i; a complete reply never panics |
| Handlers.Originals | internal/controller/handlers/handlers.go:260-265 | the URLs of the batch, in order |
| Handlers.RecoverOriginalURL | internal/controller/handlers/handlers.go:144-169 | 307 with the Location header iff the id is non-empty and the lookup succeeded; 400 for an empty id, 410 deleted, 404 not found, 500 otherwise |
| Handlers.MapRecover | internal/adapter/storage/use_map_db.go:77-90 | on the map backend a stored id redirects to its URL, or answers 410 once marked |
| Handlers.MapRecoverUnknown | internal/adapter/storage/use_map_db.go:77-90 | on the map backend an id that no stored URL has answers 404 |
| Handlers.DBRecover | internal/adapter/storage/db_operations.go:87-112 | on the database backend a live row redirects to its URL and a deleted row answers 410 |
| Handlers.FileNeverGone | internal/adapter/storage/use_file_db.go:95-112 | the file backend only answers 307 or 404 |
| Handlers.RecoverOriginalURLPost | internal/controller/handlers/handlers.go:172-235 | 400 without cookie, with an empty body, bad JSON, or another storage error; an empty reply panics; otherwise 409 for `ErrExists`, 201 else, and the link of the first id as JSON or plain text |
| Handlers.MapPost | internal/adapter/storage/use_map_db.go:43-74 | a valid URL posted to the map backend gets the next id, or its existing id with `ErrExists` |
| Handlers.RecoverAllURL | internal/controller/handlers/handlers.go:116-141 | 400 without cookie; a storage error gives 500 and still writes a non-empty history; otherwise 204 iff the history is empty, else 200 with it as JSON |
| Handlers.NoHistoryNoContent | internal/controller/handlers/handlers.go:129-132 | on the map backend, a reply with one entry per id of the user answers 204 iff the user created no URL; a user without rows in the database gets 204 |
| Handlers.FileHistoryAtEnd | internal/adapter/storage/use_file_db.go:121-138 | the file backend's history read at the end of the file answers 204 |
| Handlers.FileHistoryFromStart | internal/adapter/storage/use_file_db.go:121-138 | read from the start, the history answers 200 iff the file holds a line |
| Cookie.HexEncode | internal/controller/handlers/middleware.go:77 | two lowercase hex digits per byte |
| Cookie.HexDecode | internal/controller/handlers/middleware.go:51 | a decoded string has half as many bytes as characters; odd lengths fail |
| Cookie.HexDecodeDefined | internal/controller/handlers/middleware.go:51-52 | decoding succeeds iff the length is even and every character is a hex digit of either case |
| Cookie.HexRoundTrip | internal/controller/handlers/middleware.go:51-77 | decoding an encoding gives the bytes back |
| Cookie.HexEncodeDecode | internal/controller/handlers/middleware.go:51-77 | a lowercase hex string is the encoding of what it decodes to |
| Cookie.Token | internal/controller/handlers/middleware.go:67-77 | the cookie value is 64 hex digits of signature plus two per id byte |
| Cookie.TokenSigned | internal/controller/handlers/middleware.go:56-61 | every issued cookie passes the signature check |
| Cookie.SignedIsToken | internal/controller/handlers/middleware.go:56-61 | a lowercase value passes the check iff it is the token of some id |
| Cookie.Issue | internal/controller/handlers/middleware.go:66-77 | with random bytes the new cookie is their signed token; without, a 64-digit value holding no id |
| Cookie.Middleware | internal/controller/handlers/middleware.go:47-86 | 400 and stop iff the first cookie is not hex; hex of the wrong length panics; a signed first cookie is forwarded unchanged; otherwise (no cookie, or a wrongly signed one) the next handler runs, an error is written iff the random source failed, the client receives the new cookie iff it did not, and the next handler reads the first cookie of the request |
| Cookie.FirstVisit | internal/controller/handlers/middleware.go:66-84 | a request without the cookie gets a signed one, which the next handler reads |
| Cookie.ReturningVisit | internal/controller/handlers/middleware.go:49-65 | a cookie issued earlier is accepted unchanged |
| Cookie.ShortCookieCrashes | internal/controller/handlers/middleware.go:52-53 | the value "00" makes the middleware panic |
| Cookie.ForgedCookieReachesHandler | internal/controller/handlers/middleware.go:61-84 | a well-formed, wrongly signed cookie fails the check but is what the next handler reads |
| Cookie.RandomFailureContinues | internal/controller/handlers/middleware.go:67-84 | after a failed random source the 400 is written, no cookie reaches the client, and the next handler still runs on a 64-digit value holding no id; a request carrying that value would panic the middleware |
| Cookie.CorrectedMiddleware | internal/controller/handlers/middleware.go:47-86 | never panics; whatever the next handler reads is signed; agrees with the source on signed cookies and on first visits |

## Left out

- Locking (`sync.Mutex`), request contexts and their one-second timeouts: each operation is one atomic step here.
- The SQL engine, the migrations (`MigrateUP`, which exits through `log.Fatalln` on failure) and the driver's connection: the table is a sequence and each statement's failure is the `fails` oracle.
- DBBackend.DBStorage.GetOriginal: a scan that fails with an error other than "no rows" while `row.Err()` is nil would return the zero values; that case is merged into the failed query.
- `LIMIT 1` without `ORDER BY` is modelled as table order. No unique constraint on ids or URLs is modelled, because the schema is not part of this model.
- `repository.go` calls `newFileStorage` and `newDBStorage`, which are not defined in the repository. `NewStorage` uses the exported constructors `NewFileStorage` and `NewDBStorage`.
- The SQL tests use a table `links` with a `deleted` insert column. The model follows `db_operations.go` (`items`).
- `GetConfig` of each backend and the forwarding layer of `internal/usecase/shortener.go`: they return or pass on values unchanged.
- `PingDB` of the map and file backends and `MarkAsDeleted` of the file backend return nil. They are modelled as constant functions with no contract.
- `GetStatistic` of the file and database backends: it is not part of this model.
- The `Repository` interface dispatch: Dafny traits are not used, so `NewStorage` returns a tagged union of the three classes.
- `bufio.Scanner`'s 64 KiB token limit and read-ahead: a line is never too long, and how far a scan reads ahead is the parameter `stop`.
- `io.ReadAll` failures, `json.Unmarshal` details and `json.Marshal` failures in the handlers: the request body arrives as a string, and a JSON body is either parsed to its `url` field or refused.
- Gzip middlewares, routing, `chi.URLParam`, and the HTTP error texts other than the storage messages.
- The internals of `url.ParseRequestURI`, HMAC-SHA256 and `crypto/rand`: they are the parameters `isURI`, `mac` and `random`.
- Handlers.RecoverOriginalURLPost: the bodies of the 400 answers for a missing cookie and bad JSON are placeholders; only their status is stated.

## Findings

| source | as written | input that shows it | evidently intended | confidence | as-written member | corrected member |
|---|---|---|---|---|---|---|
| internal/config/config.go:101-105 | `reflect.ValueOf(&cfg).Elem()` on the pointer receiver is a pointer value, so `Field(j)` panics as soon as a non-zero field is to be copied | `ChangeByPriority(GetDefaultConfig(), Config{BaseURL: "https://ololo.com"})`, or any start-up, since the flag defaults are non-zero | copy every non-zero field of the override, as config_test.go asserts | high, not executed | Configuration.AsWrittenStartupPanics | Configuration.ChangeByPriority |
| internal/controller/handlers/middleware.go:51-53 | when the value is valid hex of the wrong length, `err` is nil and `err.Error()` panics | cookie `userID=00` | answer 400 | high, not executed | Cookie.ShortCookieCrashes | Cookie.CorrectedMiddleware |
| internal/controller/handlers/middleware.go:61-84 | a wrongly signed cookie is replaced in the response, but `r.AddCookie` appends the new one and the next handler's `r.Cookie` reads the old one as the user's id | the hex of any 32 bytes other than the signature of an id, followed by that id | the next handler reads the freshly issued cookie, as middleware_test.go:37-41 expects | high, not executed | Cookie.ForgedCookieReachesHandler | Cookie.CorrectedMiddleware |
| internal/controller/handlers/middleware.go:71-73 | a failed random source writes 400 but does not return, so the next handler runs after the error, reading from the request a 64-digit cookie that holds no id (the cookie set after the error is not sent; a request carrying that value would panic the middleware) | `crypto/rand` failing | stop after writing the error | medium, not executed | Cookie.RandomFailureContinues | Cookie.CorrectedMiddleware |
| internal/adapter/storage/use_file_db.go:121-126 | `GetURLArrayByUser` scans without seeking to the start; after opening or after `CreateShort` the offset is at the end, so the history is empty | a file holding one URL line, such as "x", right after `NewFileStorage` | seek to the start, as `GetOriginal` does, and list every line | high, not executed | FileBackend.HistoryAfterOpen | FileBackend.FileStorage.GetURLArrayByUserFromStart |
