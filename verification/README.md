# boeken-app core, modelled in Dafny

boeken-app is a small Flask application for cataloguing a private book
collection in one SQLite database. This project models its core:

- the CSV import `load_csv_to_db`. It has two versions: the library
  function of `models/book.py` and the upload branch in `app.py`. The model
  covers trying three encodings in turn, cleaning and mapping the headers to
  the seventeen table columns, the required `titel` column, filling in
  missing columns, dropping duplicates on (`titel`, `isbn`), coercing the
  numeric columns, stamping `added_date`, and the writers. A writer either
  replaces the stored books or merges only the new ones.
- the `books` table operations `add_book`, `edit_book` and `delete_book`
  of `models/book.py`, and the add, edit and delete routes of `app.py`;
- `search_books` of `models/book.py`: thirteen text filters and five
  numeric filters. The `/` and `/search` routes of `app.py` build their
  query from the text filters only;
- the display settings: one colour and a dark-mode switch. This covers
  `update_settings`, the hex colour check of the `/settings` route and the
  default row that `init_db` inserts;
- registration and login of `models/user.py`, with `is_admin`, and the
  `users` table that `init_db` of `models/database.py` creates and seeds
  with an administrator.

The module layout:

| file | contents |
|---|---|
| `wrappers.dfy` | `Option` and `Result` |
| `text.dfy` | Python's `strip`, `lower` and character removal |
| `numbers.dfy` | `int(...)` and `float(...)` on plain literals |
| `frames.dfy` | cells, rows and frames, the (`titel`, `isbn`) key |
| `csv_import.dfy` | the preparation stages |
| `book_store.dfy` | the stored table and the two writers |
| `positional_merge.dfy` | the merge as written, which binds by position |
| `null_keys.dfy` | the merges as written on blank (`titel`, `isbn`) cells |
| `typed_keys.dfy` | the upload merge as written on an `isbn` column pandas reads as numbers |
| `book_forms.dfy` | the form records |
| `book_crud.dfy` | the add, edit and delete specifications |
| `library.dfy` | the `Library` class whose methods change the table in place |
| `search.dfy` | the search queries |
| `settings.dfy` | the settings |
| `users.dfy` | the users |

Operations that change state are methods on classes:
- `Books.Library` (the `books` table);
- `Settings.SettingsStore` (the settings row);
- `Users.UserTable`;
- `Users.Session` (the Flask session).

Each such method is proved against a function of the old state. The
properties of that function are proved as lemmas. A table kept by
`Books.Library` is always valid:
- ids are ascending and below the next id;
- every record has exactly the seventeen columns.

The SQLite engine itself is not modelled. A query is passed to a `run`
parameter that stands for `cursor.execute` followed by `fetchall`. The
decoder, the CSV reader, bcrypt's hash and check, and the clock are also
parameters.

As written, `app.py` does not parse. Line 57 reads `if:` and line 189
`else isinstance(csv_source, str):`. The model follows the upload branch
(lines 59-188), the only branch that `upload_csv` can reach. The file-path
branch (lines 189-204) is left out.

## Model

| member | source | states |
|---|---|---|
| CsvImport.ReadUpload | models/book.py:11-23 | The result is the first encoding, in the order utf-8-sig, iso-8859-1, windows-1252, that decodes the bytes, then read. It is `NoEncoding` exactly when none of the three decodes. |
| CsvImport.CleanHeader | models/book.py:25 | A cleaned header holds no byte-order mark and neither starts nor ends with white space. |
| CsvImport.MapHeader | models/book.py:45 | A listed header maps into the expected columns. An unlisted one keeps its length and holds no upper-case ASCII or Latin-1 letter. |
| CsvImport.MappingTargetsExpected | models/book.py:26-43 | Every synonym in the mapping names one of the sixteen expected columns. |
| CsvImport.SchemaNamesMapToThemselves | models/book.py:26-43 | Where a table column name is itself a key of the mapping, it maps to itself. |
| CsvImport.CanonicalNameIsFixed | models/book.py:25-45 | A table column name comes through clean-up and mapping unchanged. |
| CsvImport.UnlistedHeaderIsLowered | models/book.py:45 | A clean header that the mapping does not list becomes its lower-case form, with ASCII and Latin-1 letters lowered. |
| CsvImport.MixedCaseSynonymIsNotMapped | models/book.py:36 | `Reeks Nr` is not a synonym. It lowers to `reeks nr`, which is not a table column, so the mapping misses mixed-case spellings. |
| CsvImport.SchemaNamesAreSnakeCase | app.py:23-41 | Every table column name is non-empty lower-case letters and underscores. |
| CsvImport.ToFrame | models/book.py:16 | The frame read under distinct column names has one row per record. Each cell is the record's field at that column's position, or empty when the record is short. |
| CsvImport.FillMissing | models/book.py:51-56 | The read columns come first and are unchanged. Every expected column is present afterwards. Every added column is an expected one. Every cell already read keeps its value. |
| CsvImport.Dedup | models/book.py:58 | No two kept rows share (`titel`, `isbn`). Every key is still present, and every kept row is an input row. |
| CsvImport.DedupKeepsFirst | models/book.py:58 | Each kept row is the first input row with its key (`keep="first"`). |
| CsvImport.DedupKeepsOrder | models/book.py:58 | Kept rows are in the order of their first occurrences. |
| CsvImport.DedupOfUniqueRows | models/book.py:58 | Rows with distinct keys are kept as they are. |
| CsvImport.CleanPrice | models/book.py:60 | The cleaned price holds no euro sign and no comma. |
| CsvImport.CleanPriceAppend | models/book.py:60 | Clean-up works character by character: cleaning a concatenation is concatenating the cleaned parts. |
| CsvImport.CoerceRow | models/book.py:59-65 | `prijs`, `paginas` and `reeks_nr` become numbers. Every other cell is unchanged, and so is the row's key. |
| CsvImport.CoerceFrame | models/book.py:59-65 | Same columns, same number of rows, same keys; every numeric cell is a number. |
| CsvImport.PriceInDutchNotation | models/book.py:60-61 | `€12,50` is coerced to the value of `12.50`, for any digit strings on either side of the comma. |
| CsvImport.EmptyBecomesZero | models/book.py:61-65 | An empty numeric cell becomes 0. |
| CsvImport.UnparseableBecomesZero | models/book.py:61-65 | A cell holding a character that occurs in no number `to_numeric` reads becomes 0 (`errors='coerce'` followed by `fillna(0)`). Such a character is none of: a digit, a sign, a point, white space, `€`, `,`, or a letter of an exponent, `inf`, `infinity` or `nan`. |
| CsvImport.Stamp | models/book.py:66-67 | Adds `added_date` holding the import time when the frame has no such column. Every existing cell is kept. |
| CsvImport.FinishIsPrepared | models/book.py:58-67 | After de-duplication, coercion and stamping, the frame has every table column, unique keys and a number in every numeric column. Its key set is unchanged. |
| CsvImport.PreparationSucceeds | models/book.py:8-67 | Preparation succeeds exactly when all of these hold: the input is an upload, an encoding decodes it, the reader accepts it, some header maps to `titel`, and no two headers map to the same column. The prepared frame is then ready for the writer. |
| CsvImport.ReadErrorIsReported | models/book.py:16-23 | A read or decode failure is the preparation's error. |
| CsvImport.PrepareUpload | models/book.py:8-67 | The method's result is that preparation, and a successful result is a prepared frame. |
| BookStore.RecordKeepsKey | models/book.py:79 | Storing a row keeps its (`titel`, `isbn`) key. |
| BookStore.Appended | models/book.py:79 | Appended rows get consecutive ids from the next id, one book per row. |
| BookStore.StoredKeysOfAppend | models/book.py:79 | Appending rows adds exactly their keys to the stored keys. |
| BookStore.NewRowsMembers | app.py:175-177 | Corrected (keys as text): a row is new exactly when it is an input row whose key is not stored. |
| BookStore.WriteAllReplacesStore | models/book.py:74-82 | With `overwrite`, or on an empty table, and when there are no unknown columns, the table becomes the frame's rows with fresh ids. The count reported is the frame's length. The upload writer does the same. |
| BookStore.WriteAllFailureKeepsStore | models/book.py:74-82 | A frame with rows and a column outside the seventeen data columns fails `to_sql`. Rollback then restores the deleted books, and both writers report the unknown columns. |
| BookStore.UnknownColumnsAreUnknown | models/book.py:79 | A column is reported unknown exactly when the frame has it and it is not one of the seventeen data columns. |
| BookStore.SchemaColumnsAreKnown | models/book.py:79 | A frame with exactly the table's data columns has no unknown column. |
| BookStore.LiveMergeKeys | models/book.py:84-88 | Corrected (by name): after the row-by-row merge the stored keys are the old ones plus the frame's. |
| BookStore.MergeAddsOnlyNewKeys | models/book.py:84-91 | Corrected (by name): merging into a non-empty table keeps every stored book as it was and keeps stored keys unique. Without unknown columns it succeeds and adds exactly the frame's keys. A failed merge leaves the table as it was. |
| BookStore.LiveMergeIsIdempotent | models/book.py:84-91 | Corrected (by name): merging the same rows twice is merging them once. |
| BookStore.LiveMergeOfStoredKeys | models/book.py:84-88 | Corrected (by name): rows whose keys are all stored change nothing. |
| BookStore.LiveMergeMatchesSnapshot | models/book.py:84-88 | Corrected (by name, keys as text): for rows with distinct keys, checking each row against the live table gives the same table as filtering once against a snapshot (app.py:175-180). |
| BookStore.SnapshotAppends | app.py:174-184 | The upload merge of new rows appends them after the stored books with fresh ids, reports their count and keeps the table valid. |
| BookStore.SnapshotMergeCounts | app.py:174-188 | The upload merge grows the table by exactly the new rows and keeps the old books as a prefix. It reports "nothing new" exactly when the table is unchanged, and otherwise the number of books added. |
| BookStore.MergeIsIdempotent | app.py:174-188 | Corrected (keys as text): after an upload merge no row of the same frame is new, and merging it again changes nothing. |
| BookStore.WritersAgree | models/book.py:74-91 | Corrected (by name, keys as text): for a de-duplicated frame with known columns, the library writer and the upload writer leave the same table. As written they agree only for frames in table order (PositionalMerge.WritersAgreeInSchemaOrder). |
| BookStore.UntitledUploadIsRefused | models/book.py:46-49 | A CSV with no header mapping to `titel` leaves the table untouched and reports the missing column, in both loaders. |
| BookStore.LoadKeepsKeysUnique | models/book.py:6-93 | Corrected (by name): whatever the outcome, the library loader keeps stored (`titel`, `isbn`) keys unique. |
| BookStore.SnapshotLoadKeepsKeysUnique | app.py:54-188 | Corrected (keys as text): whatever the outcome, the upload loader keeps stored keys unique. |
| BookStore.LiveMergeKeepsValid | models/book.py:84-88 | Corrected (by name): the merge keeps ids ascending, below the next id and records complete. |
| Books.Library.constructor | app.py:23-41 | A fresh database has no books and the next id is 1 (AUTOINCREMENT). |
| Books.Library.Import | models/book.py:69-91 | Corrected (by name): the writer leaves the state and reports the outcome that the library writer specification gives for the old state. |
| Books.Library.MergeRows | models/book.py:84-88 | Corrected (by name): the `iterrows` loop leaves exactly the row-by-row merge of the rows into the old table. |
| Books.Library.LoadCsv | models/book.py:6-93 | Corrected (by name): the whole library import, from bytes to outcome, matches the specification applied to the preparation. |
| Books.Library.LoadUpload | app.py:54-188 | The whole upload import matches the upload specification. |
| Books.Library.WriteAllRows | models/book.py:74-82 | Deletes, then appends the whole frame with fresh ids, or restores the books when the append fails. |
| Books.Library.ImportSnapshot | app.py:162-188 | Overwrite, merge of the new rows only, or "nothing new", as the upload writer specification says. |
| Books.Library.AddBook | models/book.py:152-187 | The new state and outcome are those of `add_book`'s specification; the table stays valid. |
| Books.Library.InsertRecord | models/book.py:179-181 | Appends the record under the next id and advances it. |
| Books.Library.EditBook | models/book.py:189-225 | The new state and outcome are those of `edit_book`'s specification. |
| Books.Library.UpdateRecords | models/book.py:218-219 | Replaces the record of every book with the id; ids and the next id are unchanged. |
| Books.Library.DeleteBook | models/book.py:227-242 | The new state and outcome are those of `delete_book`'s specification. |
| Books.Library.AddBookRoute | app.py:245-276 | The new state and outcome are those of the add route's specification. |
| Books.Library.EditBookRoute | app.py:382-430 | The new state and outcome are those of the edit route's specification. |
| BookForms.PriceField | models/book.py:161 | An empty price is 0. Otherwise the field is accepted exactly when it is a plain decimal literal, and it is then a number. |
| BookForms.CountField | models/book.py:162 | An empty page count is 0. Otherwise it is accepted exactly when it is a plain decimal integer literal. |
| BookForms.SeriesNumberField | models/book.py:166 | A blank series number is 0. Otherwise it is accepted exactly when it is a plain decimal integer literal. |
| BookForms.FormRecord | models/book.py:156-174 | A record is built exactly when all three number fields are accepted, and it then has the seventeen columns. |
| BookForms.FormRecordText | models/book.py:156-172 | Each text column holds the form field under the same name (with the `add_` prefix in the add route). |
| BookForms.FormRecordAdded | models/book.py:173 | `added_date` holds the value passed in: the clock for an add, the form or the stored date for an edit. |
| BookForms.FormRecordNumbers | models/book.py:161-162 | `prijs` and `paginas` are numbers, 0 when the field is empty. |
| BookForms.FormRecordSeriesText | app.py:257 | In the routes, `reeks_nr` is stored as the text typed. |
| BookForms.EmptyNumbersAreAccepted | models/book.py:161-166 | A form with the three number fields empty always yields a record. |
| BookForms.StampedRecordIsFilled | app.py:264-266 | A record stamped with a non-empty time always has a truthy value, so `any(data.values())` always holds. |
| BookCrud.Updated | models/book.py:218-219 | Same length and ids. Exactly the books with the id get the new record. |
| BookCrud.AddBookRefusals | models/book.py:152-154 | `add_book` refuses a blank title, then an unparseable number. A refusal leaves the table as it was. |
| BookCrud.AddBookStores | models/book.py:156-184 | A successful add appends one book with the next id, the form's title and the current time. The old books are kept. |
| BookCrud.EditBookRefusals | models/book.py:189-193 | `edit_book` refuses a missing or zero id, then a blank title, then an unparseable number. A refusal changes nothing. |
| BookCrud.EditBookStores | models/book.py:195-222 | A successful edit keeps every id and every other book. The book with the id gets the form's title and the form's `added_date`. |
| BookCrud.EditOfUnknownIdChangesNothing | models/book.py:218-222 | An edit of an id no book has changes nothing, although it reports success. |
| BookCrud.DeleteBookRules | models/book.py:227-242 | "Not found" exactly when no book has the id, and then nothing changes. Otherwise exactly that one book is taken out, and the ids become the old ids minus that one. |
| BookCrud.RemovedSplit | models/book.py:236 | Deleting by id works book by book across a concatenation. |
| BookCrud.SpliceKeepsValid | models/book.py:236 | Taking one book out keeps the table valid. |
| BookCrud.AddKeepsValid | models/book.py:152-187 | `add_book` keeps the table valid. |
| BookCrud.EditKeepsValid | models/book.py:189-225 | `edit_book` keeps the table valid. |
| BookCrud.DeleteKeepsValid | models/book.py:227-242 | `delete_book` keeps the table valid. |
| BookCrud.RouteAddKeepsValid | app.py:245-276 | The add route keeps the table valid. |
| BookCrud.RouteEditKeepsValid | app.py:382-430 | The edit route keeps the table valid. |
| BookCrud.RouteAddRefusals | app.py:245-268 | With a non-empty time the "fill in at least one field" refusal never happens. The route refuses exactly an unparseable number, and then changes nothing. |
| BookCrud.RouteAddStores | app.py:247-274 | A successful add appends one book with the next id. It takes the `add_` fields as its title and its series number as text. |
| BookCrud.RouteEditRefusals | app.py:395-398 | "Not found" exactly when no book has the id. A refusal changes nothing. |
| BookCrud.RouteEditStores | app.py:400-424 | A successful edit keeps the stored `added_date`, takes the form's title and leaves every other book and the next id unchanged. |
| PositionalMerge.PositionalRecord | models/book.py:87-88 | Binding `tuple(row)` succeeds exactly when the frame has seventeen columns. It then fills the table columns by position, not by name. |
| PositionalMerge.PositionalAgreesInSchemaOrder | models/book.py:84-88 | When the frame's columns are in table order, the positional merge is the by-name merge. |
| PositionalMerge.WritersAgreeInSchemaOrder | models/book.py:74-91 | For a frame in table order, the writer as written and the corrected writer agree. |
| PositionalMerge.WritersDisagreeOnUpload | models/book.py:74-91 | As written, on the prepared `Titel;ISBN` upload merged into a non-empty table, the library writer stores an empty isbn and the upload writer (app.py:174-184) stores `9`: the tables differ. |
| PositionalMerge.UploadHeaderMapped | models/book.py:25-45 | The header `Titel;ISBN` maps to the columns `titel`, `isbn`. |
| PositionalMerge.UploadFrameColumns | models/book.py:51-67 | Preparing that upload yields `titel`, `isbn`, then the other fourteen expected columns in order, then `added_date`: not the table's order. |
| PositionalMerge.UploadFrameRow | models/book.py:51-67 | The prepared upload has one row, holding the title and isbn read and an empty `auteur_voornaam` and `edition`. |
| PositionalMerge.PositionalMergeScramblesAndRepeats | models/book.py:84-88 | On the prepared upload of `Titel;ISBN`, merged into a non-empty table, the merge as written stores the isbn under `auteur_voornaam` and an empty isbn. Merging the same upload again inserts a third book. |
| PositionalMerge.ByNameMergeStoresAndSettles | models/book.py:84-88 | On the same upload, the by-name merge stores the isbn under `isbn`, and a second merge changes nothing. |
| NullKeys.SqlMergesAgreeWithoutBlanks | models/book.py:84-88 | For rows whose every title and isbn is filled, the merges as written are the corrected merges, with key cells compared as text. That is SQL's `=`, and pandas' `isin` (app.py:174-184) when the key columns are read as text (TypedKeys). |
| NullKeys.BlankRowsAlwaysInserted | models/book.py:84-88 | As written, every row with a title or isbn read blank from the upload (NaN) is inserted by the live merge, and counted new by the upload merge (app.py:175-177), whatever is stored. |
| NullKeys.BlankKeyMergeRepeats | models/book.py:84-88 | As written, merging a row whose title or isbn was read blank from the upload (NaN) twice stores it twice, in both merges (app.py:174-184), and two books then share a key. |
| NullKeys.BlankKeyMergeSettles | models/book.py:84-88 | Corrected, merging such a row a second time changes nothing, in both merges (app.py:174-184), and stored keys stay unique. |
| TypedKeys.TextKeyMatches | app.py:175-177 | Read as text, a key matches a stored key under `isin` exactly when it is a stored key. |
| TypedKeys.TextIsbnMergeAgrees | app.py:174-184 | When pandas reads the `isbn` column as text, the upload merge as written is the blank-aware merge of NullKeys. Without blank key cells, it is the corrected upload merge. |
| TypedKeys.NumericIsbnRowsAreNew | app.py:175-177 | When the `isbn` column is read as numbers, `~isin` counts every row new, since a number never equals the text a stored isbn reads back as. |
| TypedKeys.NumericIsbnMergeRepeats | app.py:174-184 | As written, uploading a row with an all-digit isbn twice stores it twice, and two books then share a key. |
| TypedKeys.NumericIsbnMergeSettles | app.py:174-184 | Corrected to compare keys as text, a second upload of such a row changes nothing, and stored keys stay unique. |
| Search.Like | models/book.py:107 | The pattern is the value between two `%`. |
| Search.FilledMembers | models/book.py:102-105 | A text column is filtered exactly when its stripped value is non-empty. |
| Search.TextQueryBindable | models/book.py:102-107 | The text filters add one placeholder and one parameter each. |
| Search.NumericQueryBindable | models/book.py:109-141 | The corrected numeric filters keep placeholders and parameters balanced. |
| Search.NumericQueryAsWrittenSurplus | models/book.py:109-141 | As written, each malformed numeric filter leaves one more placeholder than parameters. |
| Search.NumericQueriesAgree | models/book.py:109-141 | Without a malformed numeric filter, the query as written is the corrected query. |
| Search.ExecuteUnbound | models/book.py:143-148 | A query with more placeholders than parameters fails in execution, and the search returns no books. |
| Search.SearchAlwaysRuns | models/book.py:143-148 | The corrected search always hands its query and parameters to the database. |
| Search.MalformedFilterEmptiesSearch | models/book.py:109-148 | As written, a malformed numeric filter makes the whole search return nothing. |
| Search.WellFormedFiltersAgree | models/book.py:95-150 | Without a malformed filter, the search as written and the corrected search agree. |
| Search.WordAsMinimumPrice | models/book.py:118-123 | As written, `min_prijs = "tien"` yields no books at all. |
| Search.WordAsMinimumPriceIgnored | models/book.py:118-123 | Corrected, `min_prijs = "tien"` is ignored and the unfiltered query runs. |
| Search.SearchBooks | models/book.py:95-150 | The method returns the result of the corrected search specification. |
| Search.AddTextFilters | models/book.py:102-107 | The loop builds the text part of the query as the specification does. |
| Search.AddNumericFilter | models/book.py:109-141 | Corrected: one numeric filter: its clause and parameter appear only when the value parses. |
| Search.Run | models/book.py:143-148 | Execution returns the rows, or no books when the binding fails. |
| Search.RouteFiltersAreTheFilledColumns | app.py:319-323 | The routes build one `LIKE` clause and one pattern for each filled text column, in column order. |
| Search.RouteWithoutConditions | app.py:325-326 | The routes add no `WHERE` exactly when no text filter is filled. |
| Search.RouteShownRules | app.py:280-283 | The filters echoed to the page are exactly the filled columns, with their stripped values. |
| Search.RouteQueryBindable | app.py:315-329 | The route query always binds. |
| Search.RouteSearchAlwaysRuns | app.py:328-333 | The route search always hands its query to the database. |
| Search.RouteSearch | app.py:278-295 | Returns the route search result and the echoed filters. |
| Search.CollectConditions | app.py:319-323 | The loop collects the route's clauses, patterns and echoed filters. |
| Search.BuildersAgree | models/book.py:102-107 | The library's `AND`-appending builder and the routes' `' AND '.join` produce the same condition and the same parameters. |
| Settings.ValidColorIsHashAndSixDigits | app.py:530 | A colour passes the check exactly when it is `#` followed by six digits 0-9, A-F or a-f. |
| Settings.ColorExamples | app.py:48 | The default colour passes the check. A colour that is too short, lacks `#` or holds a `g` does not. |
| Settings.UpdateWithoutValues | app.py:224-232 | `update_settings` with no colour, or an empty one, and no dark mode changes nothing. |
| Settings.UpdateIdempotent | app.py:224-232 | Writing the same settings twice is writing them once. |
| Settings.UpdatesCommute | app.py:224-232 | The colour and the dark mode are written independently. |
| Settings.RejectedColorChangesNothing | app.py:527-534 | A post the route does not save leaves both settings as they were. |
| Settings.SettingsRouteSaves | app.py:524-536 | It saves exactly on a post with a valid stripped colour, and then stores that colour and whether `dark_mode` was ticked. |
| Settings.SettingsStore.constructor | app.py:46-48 | A fresh settings row holds `#15d49b` without dark mode. |
| Settings.SettingsStore.Update | app.py:224-232 | The row becomes the old settings updated as `update_settings` says. |
| Settings.SettingsStore.Post | app.py:524-536 | The row and the outcome are those of the route specification. |
| Users.FirstNamedFinds | models/user.py:19-20 | A user is found exactly when one has the name, and the one found has it. |
| Users.RegisterRefusals | models/user.py:9-22 | Blank credentials are refused first, then a password under 8 characters, then a taken name. A refusal changes nothing. |
| Users.RegisterSucceeds | models/user.py:9-29 | Registration succeeds exactly when the name is non-blank, the stripped password has at least 8 characters and no user has the name. |
| Users.RegisterAddsOneUser | models/user.py:24-29 | Success appends one user: the next id, the stripped name, the hashed stripped password and the role `user`. |
| Users.RegisterKeepsValid | models/user.py:8-32 | Usernames stay unique and ids stay below the next id. |
| Users.RegistrationAddsNoAdmin | models/user.py:26 | Registration never creates an admin. |
| Users.LoginNeedsUserAndPassword | models/user.py:34-43 | A login succeeds only for a stored user with that name whose hash checks against the stripped password. |
| Users.LoginFindsUser | models/user.py:39-43 | With unique names, a user whose hash checks is the one who logs in. |
| Users.RegisteredUserLogsIn | models/user.py:8-47 | Right after registering, the same credentials log in as the new user, with role `user`. |
| Users.SeedingKeepsValid | models/database.py:58-63 | Seeding keeps usernames unique (database.py:38) and ids fresh, leaves a user named `admin`, and adds no administrator other than it. |
| Users.SeededAdminLogsIn | models/database.py:58-63 | On a fresh database the seeded administrator is the only user, and `admin` with `admin123` logs in as it. |
| Users.RegistrationKeepsSeedOnlyAdmin | models/user.py:26 | Registration keeps `admin` the only name that can hold the role `admin`. |
| Users.UserTable.constructor | models/database.py:36-63 | A fresh `users` table holds the seeded administrator alone, and is valid: unique names, and only `admin` an administrator. |
| Users.UserTable.RegisterUser | models/user.py:8-32 | The table and the outcome are those of the registration specification; the table stays valid. |
| Users.Session.constructor | models/user.py:5-6 | A fresh session has no user and no role. |
| Users.Session.Login | models/user.py:43-47 | It succeeds exactly when the login specification finds a user. The session then holds that user, and `is_admin` holds exactly for an admin. A failed login leaves the session as it was. |

## Left out

- SQLite itself is not modelled: connections, commits, cursors, `COUNT(*)` and the on-disk file. The `books`, `settings` and `users` tables are class fields. Query execution is the `run` parameter; `LIKE` matching and `ORDER BY` are inside it.
- pandas `read_csv` with `sep=None`: delimiter sniffing, quoting, type inference and NaN are not modelled in the preparation. The reader is a parameter that returns a header and string records, and missing values are empty strings. What NaN and a numeric `isbn` do to the merges is modelled separately (NullKeys, TypedKeys). A `titel` column read as numbers, and the text a float isbn is stored as, are not.
- Decoding with a named encoding is a parameter; only the order in which encodings are tried is modelled.
- `datetime.now()` is the `now` parameter. bcrypt's `hashpw` and `checkpw` are the `hash` and `check` parameters. Salts are not modelled.
- Two header names that map to the same column are refused by the model. pandas would keep both columns, and later stages behave unpredictably on them.
- Text.Lower: lowers ASCII and Latin-1 upper-case letters only. Other upper-case letters, which Python's `lower` also lowers, are kept.
- MapHeader: an unlisted header is lowered by `Text.Lower`, so only ASCII and Latin-1 letters are lowered.
- UnlistedHeaderIsLowered: states the lowering of `Text.Lower`, ASCII and Latin-1 letters only.
- Numbers.ParseInt: accepts only an optional sign and ASCII digits. Underscores between digits and non-ASCII digits, which Python's `int` also accepts, are not modelled.
- PriceField: a field `float` accepts but `Numbers.ParseDecimal` does not (`1e3`, `inf`, `1_0`) is refused here, where `add_book` would accept it.
- CountField: a field `int` accepts but `Numbers.ParseInt` does not (`1_000`, non-ASCII digits) is refused here, where `add_book` would accept it.
- SeriesNumberField: as CountField, for `reeks_nr`.
- Search.Malformed: a numeric filter such as `min_paginas = "1_000"`, which `int` accepts, counts as malformed here. The as-written search then returns no books, where the program would run the filter.
- Unknown: the table's `id` column counts as unknown. A CSV with an `id` header is refused by the model, where `to_sql` would write the ids given.
- WriteAll: a frame with an `id` column fails here (see Unknown), where the program would store the ids given.
- SnapshotWritten: as WriteAll, for the upload writer.
- UnknownColumnsAreUnknown: "unknown" means "not one of the seventeen data columns", so `id` is included (see Unknown).
- WriteAllFailureKeepsStore: a frame whose only extra column is `id` fails here, not in the program (see Unknown).
- LiveMergeIsIdempotent: holds as written only for rows with a non-empty title and isbn. As written, a blank cell is NaN, never equal in SQL, so such a row is inserted again (see Findings and `NullKeys`).
- MergeIsIdempotent: as LiveMergeIsIdempotent, for the upload merge, whose `isin` does not match NaN against a stored NULL. It also holds as written only when pandas reads the `isbn` column as text: an all-digit column is read as numbers, and every row is inserted again (see TypedKeys and Findings).
- MergeAddsOnlyNewKeys: unique stored keys hold as written only when no merged row has a blank title or isbn (see `NullKeys.BlankKeyMergeRepeats`).
- NewRowsMembers: states the corrected filter, comparing keys as text. As written, `isin` never matches a key with a NaN cell, nor a numeric isbn against the text stored (NullKeys, TypedKeys).
- LiveMergeMatchesSnapshot: relates the corrected merges. As written the live merge binds by position (PositionalMerge), and the upload merge's `isin` compares typed cells (TypedKeys).
- WritersAgree: relates the corrected writers. As written they differ on a frame not in table order (PositionalMerge.WritersDisagreeOnUpload), or with an `isbn` column read as numbers (TypedKeys).
- SqlMergesAgreeWithoutBlanks: compares key cells as text. For the upload merge that holds only when pandas reads the key columns as text (TypedKeys.TextIsbnMergeAgrees).
- UnparseableBecomesZero: excludes cells such as `1e3` and `inf`, which pandas reads as 1000.0 and inf. The model's coercion gives 0 for them (see Numbers.ParseDecimal).
- BlankRowsAlwaysInserted: concerns blank cells read from the upload, which are NaN. A key column the upload lacks is filled with '' (models/book.py:51-56), which both comparisons match as written. The model does not tell the two kinds of blank apart.
- BlankKeyMergeRepeats: as BlankRowsAlwaysInserted.
- LoadKeepsKeysUnique: as MergeAddsOnlyNewKeys, for the whole library import.
- SnapshotLoadKeepsKeysUnique: as MergeAddsOnlyNewKeys, for the whole upload import. It also holds as written only when the `isbn` column is read as text (see MergeIsIdempotent).
- Numbers.ParseDecimal: accepts only plain decimal literals (optional sign, digits, one point). Exponents, `inf`, `nan` and underscores, which Python's `float` also accepts, are not modelled. Floating-point rounding is not modelled: prices are exact reals.
- Integers are unbounded; SQLite's 64-bit integer limit is not modelled.
- The file-path branch of `load_csv_to_db` in app.py (lines 189-204) and the start-up import of `CSV_PATH` at line 211 are not modelled. Both depend on the file system, and as written that branch does not parse.
- The rollback of a failed `to_sql` in the overwrite branch is modelled as the table left as it was; the transaction mechanics are not.
- The `rowcount == 0` check after `DELETE` (models/book.py:237-239, app.py:444-445) cannot be reached once the id was found, so it is not modelled separately.
- The exception paths of `add_book`, `edit_book` and `register_user` (models/book.py:185-187 and 223-225, models/user.py:30-32) need a database error, which is not modelled.
- The edit route's database error while fetching the book (app.py:390-393) is not modelled.
- `/search` takes JSON. Non-string values, which would make `.strip()` raise, are not modelled: filters are a map from strings to strings.
- Flask's `flash`, `redirect`, `render_template` and `jsonify` are not modelled, and neither are the upload route's file-name checks (app.py:457-468). Messages are outcome values.
- The totals of the index page, the `/statistics` route and `/fetch_cover` (a network call) are not modelled, and neither is models/statistics_helpers.py.
- models/settings.py is the same `get_settings` and `update_settings` as app.py:214-232, which the model follows. `init_db` of models/database.py drops the `settings` table (line 56), while app.py's own `init_db` creates it (lines 42-48); the model follows app.py, which does not call the one in models/database.py.
- Of `init_db` in models/database.py, the `users` table and the administrator seed are modelled (`Users.Seeded`, `Users.UserTable.constructor`). The `color` and `dark_mode` columns of `users` and their `ALTER TABLE` migration (lines 41-53) are not: nothing in the core reads them.
- The exception path of `delete_book` (models/book.py:243-245) needs a database error, which is not modelled.
- `get_settings` reads the settings row; here that is the `SettingsStore` fields.

## Findings

| source | as written | input that shows it | evidently intended | confidence | as-written member | corrected member |
|---|---|---|---|---|---|---|
| models/book.py:87-88 | The merge binds `tuple(row)` by position to the seventeen table columns, whatever the frame's column order. | A CSV whose columns are `titel, isbn, ...` in another order, merged into a non-empty table. The isbn lands in `auteur_voornaam`. The stored key is then (`titel`, ""), so the same file merged again inserts the book a second time. | Bind each table column by name, as `to_sql` does in the overwrite branch. The corrected merge, like `to_sql` and like the merge as written, fails on a column outside the table once it has a row to insert. | not executed | PositionalMerge.PositionalMergeScramblesAndRepeats | PositionalMerge.ByNameMergeStoresAndSettles |
| models/book.py:110-141 | Each numeric filter appends its clause before converting the value. When `float` or `int` raises, the clause stays but its parameter is never added. | `min_prijs = "tien"`: the query has one placeholder and no parameter, execution fails, and the search returns no books. | Append the clause only once the value converts, so the malformed filter is ignored as the comment says. | not executed | Search.WordAsMinimumPrice | Search.WordAsMinimumPriceIgnored |
| models/book.py:84-88 | The live merge looks a row up with `titel = ? AND isbn = ?`, and the upload merge of app.py:175-177 with `isin`. A blank cell reads as NaN and is bound as NULL, which neither comparison matches. | A CSV row with a title and an empty isbn, merged twice into a non-empty table: the second merge inserts it again, and two books share (`titel`, NULL). | A blank cell matches a blank cell, so the row is stored once. | not executed | NullKeys.BlankKeyMergeRepeats | NullKeys.BlankKeyMergeSettles |
| app.py:175-177 | `isin` compares the frame's key cells, as `read_csv` typed them, with the stored keys, which `read_sql_query` reads back as strings. An `isbn` column whose cells are all digits is read as numbers and never equals a stored isbn. | A CSV `Titel;ISBN` with the row `T;9789000000000`, uploaded twice into a non-empty table: the second upload counts the row new and inserts it again. Two books then share (`T`, `9789000000000`). | Compare the keys as text, for instance by reading the CSV with `dtype=str`, so the row is stored once. | not executed | TypedKeys.NumericIsbnMergeRepeats | TypedKeys.NumericIsbnMergeSettles |
