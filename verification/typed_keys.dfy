/**
 * The `isin` filter of the upload merge in app.py, with the types pandas
 * gives the key cells. `read_csv` infers the type of each column: an `isbn`
 * column whose filled cells are all digits (an ISBN-13 written without
 * hyphens) is read as numbers. `read_sql_query` reads the stored `isbn TEXT`
 * values back as strings. `isin` compares the two without conversion, so a
 * numeric ISBN never matches a stored one.
 */
module TypedKeys {
  import opened Numbers
  import opened Frames
  import opened BookStore
  import opened NullKeys

  /** A key cell as pandas holds it: a string or a number. */
  datatype Typed = Text(text: string) | Number(value: real)

  /** `read_csv` reads the `isbn` column as numbers: some cell is filled, and every filled one is digits. */
  predicate NumericIsbn(rows: seq<Row>) {
    && (exists i :: 0 <= i < |rows| && Get(rows[i], "isbn") != Str(""))
    && forall i :: 0 <= i < |rows| ==> IsDigitText(Get(rows[i], "isbn"))
  }

  predicate IsDigitText(c: Cell) {
    c.Str? && AllDigits(c.text)
  }

  /** A cell as `read_sql_query` returns it from the table. */
  function StoredTyped(c: Cell): Typed {
    match c
    case Str(s) => Text(s)
    case Num(v) => Number(v)
  }

  /** A cell of the upload as `read_csv` returns it; `numeric` is the column's inferred type. */
  function UploadTyped(c: Cell, numeric: bool): Typed {
    if numeric && IsDigitText(c) then Number(DigitsValue(c.text) as real) else StoredTyped(c)
  }

  function StoredTypedKey(record: Row): (Typed, Typed) {
    (StoredTyped(Get(record, "titel")), StoredTyped(Get(record, "isbn")))
  }

  function UploadTypedKey(row: Row, numeric: bool): (Typed, Typed) {
    (StoredTyped(Get(row, "titel")), UploadTyped(Get(row, "isbn"), numeric))
  }

  /** `existing_books[['titel', 'isbn']]` as pandas holds it. */
  function StoredTypedKeys(books: seq<Book>): set<(Typed, Typed)> {
    set b | b in books :: StoredTypedKey(b.record)
  }

  /** `~isin`: a row is new unless its key has no NaN and equals a stored key, types included. */
  function NewRowsTyped(rows: seq<Row>, books: seq<Book>, numeric: bool): seq<Row> {
    if rows == [] then []
    else
      var p := NewRowsTyped(rows[..|rows| - 1], books, numeric);
      var last := rows[|rows| - 1];
      if !HasBlank(KeyOf(last)) && UploadTypedKey(last, numeric) in StoredTypedKeys(books) then p else p + [last]
  }

  /** The upload merge of app.py as written, with the `isbn` type pandas infers for the batch. */
  function SnapshotMergeTyped(t: Table, rows: seq<Row>): Table {
    var unseen := NewRowsTyped(rows, t.books, NumericIsbn(rows));
    Table(t.books + Appended(unseen, t.nextId), t.nextId + |unseen|)
  }

  /** Read as text, a key matches a stored typed key exactly when it matches the stored key. */
  lemma TextKeyMatches(row: Row, books: seq<Book>)
    ensures UploadTypedKey(row, false) in StoredTypedKeys(books) <==> KeyOf(row) in StoredKeys(books)
  {
    if UploadTypedKey(row, false) in StoredTypedKeys(books) {
      var b :| b in books && StoredTypedKey(b.record) == UploadTypedKey(row, false);
      assert KeyOf(b.record) == KeyOf(row);
    }
    if KeyOf(row) in StoredKeys(books) {
      var b :| b in books && KeyOf(b.record) == KeyOf(row);
      assert StoredTypedKey(b.record) == UploadTypedKey(row, false);
    }
  }

  lemma {:induction false} TextFilterIsSqlFilter(rows: seq<Row>, books: seq<Book>)
    ensures NewRowsTyped(rows, books, false) == NewRowsSql(rows, StoredKeys(books))
  {
    if rows != [] {
      TextFilterIsSqlFilter(rows[..|rows| - 1], books);
      TextKeyMatches(rows[|rows| - 1], books);
    }
  }

  /**
   * When pandas reads the `isbn` column as text, the upload merge as written
   * is the one of `NullKeys`; without blank key cells as well, it is the
   * corrected `SnapshotMerge`.
   */
  lemma TextIsbnMergeAgrees(t: Table, rows: seq<Row>)
    requires !NumericIsbn(rows)
    ensures SnapshotMergeTyped(t, rows) == SnapshotMergeSql(t, rows)
    ensures (forall i :: 0 <= i < |rows| ==> !HasBlank(KeyOf(rows[i]))) ==> SnapshotMergeTyped(t, rows) == SnapshotMerge(t, rows)
  {
    TextFilterIsSqlFilter(rows, t.books);
    if forall i :: 0 <= i < |rows| ==> !HasBlank(KeyOf(rows[i])) {
      SqlMergesAgreeWithoutBlanks(t, rows);
    }
  }

  /** Every stored `isbn` is text, as the `isbn TEXT` column makes it. */
  ghost predicate TextIsbns(books: seq<Book>) {
    forall i :: 0 <= i < |books| ==> Get(books[i].record, "isbn").Str?
  }

  /** A numeric ISBN never equals a stored text one, so with a numeric column every row is new. */
  lemma {:induction false} NumericIsbnRowsAreNew(rows: seq<Row>, books: seq<Book>)
    requires TextIsbns(books)
    requires forall i :: 0 <= i < |rows| ==> IsDigitText(Get(rows[i], "isbn"))
    ensures NewRowsTyped(rows, books, true) == rows
  {
    if rows != [] {
      var prefix, last := rows[..|rows| - 1], rows[|rows| - 1];
      NumericIsbnRowsAreNew(prefix, books);
      forall b | b in books ensures StoredTypedKey(b.record) != UploadTypedKey(last, true) {
        var j :| 0 <= j < |books| && books[j] == b;
        assert Get(books[j].record, "isbn").Str?;
      }
      assert prefix + [last] == rows;
    }
  }

  /**
   * As written, re-uploading a CSV whose `isbn` column is all digits inserts
   * every row again, however the table already holds it, and two stored books
   * then share a key.
   */
  lemma NumericIsbnMergeRepeats(t: Table, row: Row)
    requires TextIsbns(t.books)
    requires IsDigitText(Get(row, "isbn")) && Get(row, "isbn") != Str("")
    ensures var twice := SnapshotMergeTyped(SnapshotMergeTyped(t, [row]), [row]);
            |twice.books| == |t.books| + 2 && !UniqueStoredKeys(twice.books)
  {
    var once := Table(t.books + [Book(t.nextId, RecordOf(row))], t.nextId + 1);
    TypedInsertedOnce(t, row);
    TextIsbnsAfterInsert(t, row);
    TypedInsertedOnce(once, row);
    SharedKey(once.books, Book(once.nextId, RecordOf(row)));
  }

  lemma TypedInsertedOnce(t: Table, row: Row)
    requires TextIsbns(t.books)
    requires IsDigitText(Get(row, "isbn")) && Get(row, "isbn") != Str("")
    ensures SnapshotMergeTyped(t, [row]) == Table(t.books + [Book(t.nextId, RecordOf(row))], t.nextId + 1)
  {
    assert NumericIsbn([row]) by {
      assert Get([row][0], "isbn") != Str("");
    }
    NumericIsbnRowsAreNew([row], t.books);
    AppendedOne(row, t.nextId);
  }

  lemma TextIsbnsAfterInsert(t: Table, row: Row)
    requires TextIsbns(t.books) && Get(row, "isbn").Str?
    ensures TextIsbns(t.books + [Book(t.nextId, RecordOf(row))])
  {
    ByNameIsbn(row);
  }

  lemma ByNameIsbn(row: Row)
    ensures Get(RecordOf(row), "isbn") == Get(row, "isbn")
  {
    RecordKeepsKey(row);
  }

  /** Corrected to compare the keys as text, a second upload of such a row changes nothing and keys stay unique. */
  lemma NumericIsbnMergeSettles(t: Table, row: Row)
    requires IsDigitText(Get(row, "isbn")) && Get(row, "isbn") != Str("")
    ensures SnapshotMerge(SnapshotMerge(t, [row]), [row]) == SnapshotMerge(t, [row])
    ensures UniqueStoredKeys(t.books) ==> UniqueStoredKeys(SnapshotMerge(t, [row]).books)
  {
    MergeIsIdempotent(t, [row]);
    if UniqueStoredKeys(t.books) {
      SnapshotMergeKeepsKeysUnique(t, [row]);
    }
  }
}
