/**
 * Blank (titel, isbn) cells in the two merges as written. pandas reads an
 * empty CSV field as NaN, and sqlite3 binds NaN as NULL. The live merge of
 * models/book.py asks `WHERE titel = ? AND isbn = ?`, which is never true
 * when a NULL is on either side. The snapshot merge of app.py asks
 * `isin`, which does not match the NaN of a frame key against the None
 * that a stored NULL reads back as. Either way, a row whose title or ISBN
 * is blank in the upload is never recognised as stored.
 *
 * The rest of the model compares a blank cell with a blank cell as equal,
 * which is what the merges evidently intend. This module shows where the
 * two part, for a frame whose `titel` and `isbn` columns come from the
 * upload, so that every blank key cell in it is NaN. A column the upload
 * lacks is filled with '' instead (models/book.py:51-56), which both
 * comparisons match; that case is not the one modelled here. Key cells are
 * compared as text, which the SQL `=` of the live merge always does; for
 * the `isin` of the upload merge it holds only when pandas reads the `isbn`
 * column as text, and `TypedKeys` shows what happens otherwise.
 */
module NullKeys {
  import opened Frames
  import opened BookStore

  /** A key with an empty cell; read from the upload, that cell is NaN. */
  predicate HasBlank(k: Key) {
    k.0 == Str("") || k.1 == Str("")
  }

  /** `SELECT COUNT(*) FROM books WHERE titel = ? AND isbn = ?` finds a book, under SQL's comparison with NULL. */
  predicate SqlFinds(books: seq<Book>, k: Key) {
    !HasBlank(k) && k in StoredKeys(books)
  }

  /** The merge loop of models/book.py, binding by name, with SQL's comparison of the key. */
  function LiveMergeSql(t: Table, rows: seq<Row>): Table {
    if rows == [] then t
    else
      var p := LiveMergeSql(t, rows[..|rows| - 1]);
      var last := rows[|rows| - 1];
      if SqlFinds(p.books, KeyOf(last)) then p else Insert(p, RecordOf(last))
  }

  /** The `~isin` filter of app.py, where a key with a NaN never matches a stored key. */
  function NewRowsSql(rows: seq<Row>, keys: set<Key>): seq<Row> {
    if rows == [] then []
    else
      var p := NewRowsSql(rows[..|rows| - 1], keys);
      var last := rows[|rows| - 1];
      if !HasBlank(KeyOf(last)) && KeyOf(last) in keys then p else p + [last]
  }

  /** The snapshot merge of app.py with that filter. */
  function SnapshotMergeSql(t: Table, rows: seq<Row>): Table {
    var unseen := NewRowsSql(rows, StoredKeys(t.books));
    Table(t.books + Appended(unseen, t.nextId), t.nextId + |unseen|)
  }

  /** A batch with no blank key cell is merged as the corrected live merge does. */
  lemma {:induction false} LiveMergeSqlWithoutBlanks(t: Table, rows: seq<Row>)
    requires forall i :: 0 <= i < |rows| ==> !HasBlank(KeyOf(rows[i]))
    ensures LiveMergeSql(t, rows) == LiveMerge(t, rows)
  {
    if rows != [] {
      LiveMergeSqlWithoutBlanks(t, rows[..|rows| - 1]);
    }
  }

  /** A batch with no blank key cell is filtered as the corrected snapshot merge does. */
  lemma {:induction false} NewRowsSqlWithoutBlanks(rows: seq<Row>, keys: set<Key>)
    requires forall i :: 0 <= i < |rows| ==> !HasBlank(KeyOf(rows[i]))
    ensures NewRowsSql(rows, keys) == NewRows(rows, keys)
  {
    if rows != [] {
      NewRowsSqlWithoutBlanks(rows[..|rows| - 1], keys);
    }
  }

  /**
   * For batches whose every title and ISBN is filled, the merges as written,
   * comparing key cells as text, are the corrected ones, so the properties
   * proved of those hold as written for such batches.
   */
  lemma SqlMergesAgreeWithoutBlanks(t: Table, rows: seq<Row>)
    requires forall i :: 0 <= i < |rows| ==> !HasBlank(KeyOf(rows[i]))
    ensures LiveMergeSql(t, rows) == LiveMerge(t, rows)
    ensures SnapshotMergeSql(t, rows) == SnapshotMerge(t, rows)
  {
    LiveMergeSqlWithoutBlanks(t, rows);
    NewRowsSqlWithoutBlanks(rows, StoredKeys(t.books));
  }

  /** As written, every row with a blank key cell read from the upload (NaN) is inserted, whatever the table holds. */
  lemma BlankRowsAlwaysInserted(t: Table, rows: seq<Row>)
    requires forall i :: 0 <= i < |rows| ==> HasBlank(KeyOf(rows[i]))
    ensures LiveMergeSql(t, rows) == Table(t.books + Appended(rows, t.nextId), t.nextId + |rows|)
    ensures NewRowsSql(rows, StoredKeys(t.books)) == rows
  {
    BlankRowsInsertedLive(t, rows);
    BlankRowsAreNew(rows, StoredKeys(t.books));
  }

  lemma {:induction false} BlankRowsInsertedLive(t: Table, rows: seq<Row>)
    requires forall i :: 0 <= i < |rows| ==> HasBlank(KeyOf(rows[i]))
    ensures LiveMergeSql(t, rows) == Table(t.books + Appended(rows, t.nextId), t.nextId + |rows|)
  {
    if rows == [] {
      AppendNothing(t, rows);
    } else {
      var prefix := rows[..|rows| - 1];
      var before := Table(t.books + Appended(prefix, t.nextId), t.nextId + |rows| - 1);
      BlankRowsInsertedLive(t, prefix);
      assert LiveMergeSql(t, prefix) == before by {
        assert |prefix| == |rows| - 1;
      }
      BlankRowInsertedLive(t, rows);
      AppendedInsert(t, rows);
    }
  }

  lemma BlankRowInsertedLive(t: Table, rows: seq<Row>)
    requires rows != [] && HasBlank(KeyOf(rows[|rows| - 1]))
    ensures LiveMergeSql(t, rows) == Insert(LiveMergeSql(t, rows[..|rows| - 1]), RecordOf(rows[|rows| - 1]))
  {
  }

  lemma {:induction false} BlankRowsAreNew(rows: seq<Row>, keys: set<Key>)
    requires forall i :: 0 <= i < |rows| ==> HasBlank(KeyOf(rows[i]))
    ensures NewRowsSql(rows, keys) == rows
  {
    if rows != [] {
      BlankRowsAreNew(rows[..|rows| - 1], keys);
      assert HasBlank(KeyOf(rows[|rows| - 1]));
      assert rows[..|rows| - 1] + [rows[|rows| - 1]] == rows;
    }
  }

  /**
   * As written, merging a row whose title or ISBN was read blank from the
   * upload (NaN) a second time stores it a second time, in either merge, and two stored books then
   * share a key.
   */
  lemma BlankKeyMergeRepeats(t: Table, row: Row)
    requires HasBlank(KeyOf(row))
    ensures var twice := LiveMergeSql(LiveMergeSql(t, [row]), [row]);
            |twice.books| == |t.books| + 2 && !UniqueStoredKeys(twice.books)
    ensures var twice := SnapshotMergeSql(SnapshotMergeSql(t, [row]), [row]);
            |twice.books| == |t.books| + 2 && !UniqueStoredKeys(twice.books)
  {
    var once := Table(t.books + [Book(t.nextId, RecordOf(row))], t.nextId + 1);
    InsertedOnce(t, row);
    InsertedOnce(once, row);
    SharedKey(once.books, Book(once.nextId, RecordOf(row)));
  }

  lemma InsertedOnce(t: Table, row: Row)
    requires HasBlank(KeyOf(row))
    ensures LiveMergeSql(t, [row]) == Table(t.books + [Book(t.nextId, RecordOf(row))], t.nextId + 1)
    ensures SnapshotMergeSql(t, [row]) == LiveMergeSql(t, [row])
  {
    LiveInsertedOnce(t, row);
    SnapshotInsertedOnce(t, row);
  }

  lemma LiveInsertedOnce(t: Table, row: Row)
    requires HasBlank(KeyOf(row))
    ensures LiveMergeSql(t, [row]) == Table(t.books + [Book(t.nextId, RecordOf(row))], t.nextId + 1)
  {
    assert [row][..0] == [];
    BlankRowInsertedLive(t, [row]);
  }

  lemma SnapshotInsertedOnce(t: Table, row: Row)
    requires HasBlank(KeyOf(row))
    ensures SnapshotMergeSql(t, [row]) == Table(t.books + [Book(t.nextId, RecordOf(row))], t.nextId + 1)
  {
    BlankRowsAreNew([row], StoredKeys(t.books));
    AppendedOne(row, t.nextId);
  }

  lemma AppendedOne(row: Row, start: nat)
    ensures Appended([row], start) == [Book(start, RecordOf(row))]
  {
    assert [row][..0] == [];
  }

  lemma SharedKey(books: seq<Book>, b: Book)
    requires books != [] && KeyOf(books[|books| - 1].record) == KeyOf(b.record)
    ensures !UniqueStoredKeys(books + [b])
  {
    var all := books + [b];
    assert KeyOf(all[|books| - 1].record) == KeyOf(all[|books|].record);
  }

  /** Corrected, a second merge of the same row changes nothing, blank key cells included. */
  lemma BlankKeyMergeSettles(t: Table, row: Row)
    requires HasBlank(KeyOf(row))
    ensures LiveMerge(LiveMerge(t, [row]), [row]) == LiveMerge(t, [row])
    ensures SnapshotMerge(SnapshotMerge(t, [row]), [row]) == SnapshotMerge(t, [row])
    ensures UniqueStoredKeys(t.books) ==> UniqueStoredKeys(LiveMerge(t, [row]).books)
  {
    LiveMergeIsIdempotent(t, [row]);
    MergeIsIdempotent(t, [row]);
    if UniqueStoredKeys(t.books) {
      LiveMergeKeepsKeysUnique(t, [row]);
    }
  }
}
