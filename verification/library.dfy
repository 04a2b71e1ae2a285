/**
 * The `books` table as the application changes it: the importers of
 * `load_csv_to_db`, and the add, edit and delete operations of
 * models/book.py and of the app.py routes.
 */
module Books {
  import opened Wrappers
  import opened Text
  import opened Frames
  import opened CsvImport
  import opened BookStore
  import opened BookForms
  import opened BookCrud

  // ---------------------------------------------------------------------------
  // The `books` table

  /** The single, unscoped `books` table of the database. */
  class Library {
    var books: seq<Book>
    var nextId: nat

    ghost predicate Valid()
      reads this
    {
      ValidTable(State())
    }

    function State(): Table
      reads this
    {
      Table(books, nextId)
    }

    /** The empty table of a freshly initialised database. */
    constructor ()
      ensures Valid() && books == [] && nextId == 1
    {
      books := [];
      nextId := 1;
    }

    /**
     * The writer at the end of `load_csv_to_db` in models/book.py, with the
     * merge corrected to bind by name, for a prepared frame. A merge whose
     * INSERT fails on an unknown column is never committed.
     */
    method Import(f: Frame, overwrite: bool) returns (outcome: ImportOutcome)
      requires Valid()
      modifies this
      ensures Valid()
      ensures (State(), outcome) == Written(old(State()), f, overwrite)
    {
      ghost var t := State();
      if overwrite || books == [] {
        outcome := WriteAllRows(f);
        assert Written(t, f, overwrite) == WriteAll(t, f);
        return;
      }
      var saved := State();
      MergeRows(f.rows);
      LiveMergeKeepsValid(t, f.rows);
      var unknown := Unknown(f.columns);
      if unknown != [] && State() != saved {
        books, nextId := saved.books, saved.nextId;
        assert Written(t, f, overwrite) == (t, Failed(UnknownColumns(unknown)));
        return Failed(UnknownColumns(unknown));
      }
      assert Written(t, f, overwrite) == (LiveMerge(t, f.rows), MergedNew);
      return MergedNew;
    }

    /**
     * The `iterrows` loop of the merge in models/book.py, corrected to bind
     * each row by column name: a row is inserted when no stored book,
     * including the ones inserted before it, has its (titel, isbn).
     */
    method MergeRows(rows: seq<Row>)
      modifies this
      ensures State() == LiveMerge(old(State()), rows)
    {
      ghost var t := State();
      var k := 0;
      while k < |rows|
        invariant 0 <= k <= |rows|
        invariant State() == LiveMerge(t, rows[..k])
      {
        var row := rows[k];
        ghost var seen := rows[..k + 1];
        assert seen[..k] == rows[..k] && seen[k] == row;
        if KeyOf(row) !in StoredKeys(books) {
          LiveMergeInserts(t, seen);
          books := books + [Book(nextId, RecordOf(row))];
          nextId := nextId + 1;
        } else {
          LiveMergeSkips(t, seen);
        }
        k := k + 1;
      }
      assert rows[..k] == rows;
    }

    /** `load_csv_to_db` of models/book.py, from the uploaded bytes to the outcome. */
    method LoadCsv(upload: Option<seq<bv8>>, decode: Decoder, read: Reader, now: string, overwrite: bool)
      returns (outcome: ImportOutcome)
      requires Valid()
      modifies this
      ensures Valid()
      ensures (State(), outcome) == Loaded(old(State()), Preparation(upload, decode, read, now), overwrite)
    {
      var prepared := PrepareUpload(upload, decode, read, now);
      if prepared.Err? {
        return Failed(prepared.error);
      }
      outcome := Import(prepared.value, overwrite);
    }

    /** The upload branch of `load_csv_to_db` in app.py, from the uploaded bytes to the outcome. */
    method LoadUpload(bytes: seq<bv8>, decode: Decoder, read: Reader, now: string, overwrite: bool)
      returns (outcome: ImportOutcome)
      requires Valid()
      modifies this
      ensures Valid()
      ensures (State(), outcome) == SnapshotLoaded(old(State()), Preparation(Some(bytes), decode, read, now), overwrite)
    {
      var prepared := PrepareUpload(Some(bytes), decode, read, now);
      if prepared.Err? {
        return Failed(prepared.error);
      }
      outcome := ImportSnapshot(prepared.value, overwrite);
    }

    /** The branch both loaders share: delete what is stored, then append the whole frame. */
    method WriteAllRows(f: Frame) returns (outcome: ImportOutcome)
      requires Valid()
      modifies this
      ensures Valid()
      ensures (State(), outcome) == WriteAll(old(State()), f)
    {
      ghost var t := State();
      var saved := books;
      if |books| > 0 {
        books := [];
      }
      var unknown := Unknown(f.columns);
      if unknown != [] && f.rows != [] {
        books := saved;
        assert State() == t;
        return Failed(UnknownColumns(unknown));
      }
      FreshTableValid(f.rows, nextId);
      books := Appended(f.rows, nextId);
      nextId := nextId + |f.rows|;
      assert State() == WriteAll(t, f).0;
      return Imported(|f.rows|);
    }

    /** The writer at the end of the upload branch of `load_csv_to_db` in app.py. */
    method ImportSnapshot(f: Frame, overwrite: bool) returns (outcome: ImportOutcome)
      requires Valid()
      modifies this
      ensures Valid()
      ensures (State(), outcome) == SnapshotWritten(old(State()), f, overwrite)
    {
      if overwrite || books == [] {
        outcome := WriteAllRows(f);
        return;
      }
      ghost var t := State();
      var unseen := NewRows(f.rows, StoredKeys(books));
      if unseen == [] {
        return NothingNew;
      }
      var unknown := Unknown(f.columns);
      if unknown != [] {
        return Failed(UnknownColumns(unknown));
      }
      SnapshotAppends(t, f);
      books := books + Appended(unseen, nextId);
      nextId := nextId + |unseen|;
      assert State() == SnapshotMerge(t, f.rows);
      return MergedCount(|unseen|);
    }

    /** `add_book` of models/book.py. */
    method AddBook(form: Form, now: string) returns (outcome: CrudOutcome)
      requires Valid()
      modifies this
      ensures Valid()
      ensures (State(), outcome) == AddedBook(old(State()), form, now)
    {
      ghost var t := State();
      if IsBlank(FormText(form, "titel")) {
        assert AddedBook(t, form, now) == (t, TitleRequired);
        return TitleRequired;
      }
      var record := FormRecord(form, "", SeriesAsNumber, Str(now));
      if record.None? {
        assert AddedBook(t, form, now) == (t, InvalidNumber);
        return InvalidNumber;
      }
      assert AddedBook(t, form, now) == (Insert(t, record.value), Done);
      InsertRecord(record.value);
      return Done;
    }

    /** `INSERT INTO books (...) VALUES (...)` of a complete record: it gets the next id. */
    method InsertRecord(record: Row)
      requires Valid() && IsRecord(record)
      modifies this
      ensures Valid()
      ensures State() == Insert(old(State()), record)
    {
      InsertKeepsValid(State(), record);
      books := books + [Book(nextId, record)];
      nextId := nextId + 1;
    }

    /** `edit_book` of models/book.py. */
    method EditBook(bookId: Option<int>, form: Form) returns (outcome: CrudOutcome)
      requires Valid()
      modifies this
      ensures Valid()
      ensures (State(), outcome) == EditedBook(old(State()), bookId, form)
    {
      ghost var t := State();
      if bookId.None? || bookId.value == 0 {
        assert EditedBook(t, bookId, form) == (t, MissingId);
        return MissingId;
      }
      if IsBlank(FormText(form, "titel")) {
        assert EditedBook(t, bookId, form) == (t, TitleRequired);
        return TitleRequired;
      }
      var record := FormRecord(form, "", SeriesAsNumber, Str(FormText(form, AddedDate)));
      if record.None? {
        assert EditedBook(t, bookId, form) == (t, InvalidNumber);
        return InvalidNumber;
      }
      assert EditedBook(t, bookId, form) == (Table(Updated(t.books, bookId.value, record.value), t.nextId), Done);
      UpdateRecords(bookId.value, record.value);
      return Done;
    }

    /** `UPDATE books SET ... WHERE id = ?` with a complete record. */
    method UpdateRecords(id: int, record: Row)
      requires Valid() && IsRecord(record)
      modifies this
      ensures Valid()
      ensures State() == Table(Updated(old(books), id, record), old(nextId))
    {
      UpdatedKeepsValid(State(), id, record);
      books := Updated(books, id, record);
    }

    /** `delete_book` of models/book.py and the delete route of app.py. */
    method DeleteBook(id: int) returns (outcome: CrudOutcome)
      requires Valid()
      modifies this
      ensures Valid()
      ensures (State(), outcome) == DeletedBook(old(State()), id)
    {
      ghost var t := State();
      if id !in Ids(books) {
        assert DeletedBook(t, id) == (t, NotFound);
        return NotFound;
      }
      DeleteKeepsValid(t, id);
      books := Removed(books, id);
      assert State() == DeletedBook(t, id).0;
      return Done;
    }

    /** The add branch of the index route of app.py. */
    method AddBookRoute(form: Form, now: string) returns (outcome: CrudOutcome)
      requires Valid()
      modifies this
      ensures Valid()
      ensures (State(), outcome) == RouteAdded(old(State()), form, now)
    {
      ghost var t := State();
      var record := FormRecord(form, "add_", SeriesAsText, Str(now));
      if record.None? {
        assert RouteAdded(t, form, now) == (t, InvalidNumber);
        return InvalidNumber;
      }
      if !AnyFilled(record.value) {
        assert RouteAdded(t, form, now) == (t, NothingFilled);
        return NothingFilled;
      }
      assert RouteAdded(t, form, now) == (Insert(t, record.value), Done);
      InsertRecord(record.value);
      return Done;
    }

    /** The edit route of app.py. */
    method EditBookRoute(id: int, form: Form) returns (outcome: CrudOutcome)
      requires Valid()
      modifies this
      ensures Valid()
      ensures (State(), outcome) == RouteEdited(old(State()), id, form)
    {
      ghost var t := State();
      if id !in Ids(books) {
        assert RouteEdited(t, id, form) == (t, NotFound);
        return NotFound;
      }
      var added := Get(books[IndexOfId(books, id)].record, AddedDate);
      var record := FormRecord(form, "", SeriesAsText, added);
      if record.None? {
        assert RouteEdited(t, id, form) == (t, InvalidNumber);
        return InvalidNumber;
      }
      assert RouteEdited(t, id, form) == (Table(Updated(t.books, id, record.value), t.nextId), Done);
      UpdateRecords(id, record.value);
      return Done;
    }
  }
}
