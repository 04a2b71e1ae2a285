/**
 * The `books` table as a value, its invariant, and the reconciling writer at
 * the end of `load_csv_to_db`: the live-check variant of models/book.py and
 * the snapshot variant of app.py.
 */
module BookStore {
  import opened Wrappers
  import opened Text
  import opened Numbers
  import opened Frames
  import opened CsvImport

  /** A stored book: its `AUTOINCREMENT` id and its values for the table columns. */
  datatype Book = Book(id: nat, record: Row)

  /** The record an INSERT that names each table column stores for a frame row. */
  function RecordOf(row: Row): (r: Row)
    ensures r.Keys == ColumnSet(SchemaColumns)
    ensures forall c :: c in SchemaColumns ==> r[c] == Get(row, c)
  {
    map c | c in SchemaColumns :: Get(row, c)
  }

  /** Storing a row keeps its (titel, isbn) key. */
  lemma {:induction false} RecordKeepsKey(row: Row)
    ensures KeyOf(RecordOf(row)) == KeyOf(row)
  {
    KeyColumnsAreStored();
  }

  lemma KeyColumnsAreStored()
    ensures "titel" in SchemaColumns && "isbn" in SchemaColumns
  {
  }

  /** The (titel, isbn) keys of the stored books. */
  function StoredKeys(books: seq<Book>): set<Key> {
    set b | b in books :: KeyOf(b.record)
  }

  /** No two stored books share a (titel, isbn) key. */
  ghost predicate UniqueStoredKeys(books: seq<Book>) {
    forall i, j :: 0 <= i < j < |books| ==> KeyOf(books[i].record) != KeyOf(books[j].record)
  }

  /** The books an append of `rows` creates, numbered from `start` on. */
  function Appended(rows: seq<Row>, start: nat): (bs: seq<Book>)
    ensures |bs| == |rows|
    ensures forall i :: 0 <= i < |rows| ==> bs[i].id == start + i
  {
    if rows == [] then []
    else Appended(rows[..|rows| - 1], start) + [Book(start + |rows| - 1, RecordOf(rows[|rows| - 1]))]
  }

  /** Each appended book carries the key of its row. */
  lemma {:induction false} AppendedKeys(rows: seq<Row>, start: nat)
    ensures forall i :: 0 <= i < |rows| ==> KeyOf(Appended(rows, start)[i].record) == KeyOf(rows[i])
  {
    if rows != [] {
      AppendedKeys(rows[..|rows| - 1], start);
      RecordKeepsKey(rows[|rows| - 1]);
    }
  }

  lemma {:induction false} StoredKeysOfAppend(books: seq<Book>, rows: seq<Row>, start: nat)
    ensures StoredKeys(books + Appended(rows, start)) == StoredKeys(books) + KeySet(rows)
  {
    var added := Appended(rows, start);
    AppendedKeys(rows, start);
    forall k | k in StoredKeys(books + added) ensures k in StoredKeys(books) + KeySet(rows) {
      var b :| b in books + added && KeyOf(b.record) == k;
      if b !in books {
        var i :| 0 <= i < |added| && added[i] == b;
        assert rows[i] in rows;
      }
    }
    forall k | k in StoredKeys(books) + KeySet(rows) ensures k in StoredKeys(books + added) {
      if k !in StoredKeys(books) {
        var r :| r in rows && KeyOf(r) == k;
        var i :| 0 <= i < |rows| && rows[i] == r;
        assert added[i] in books + added;
      }
    }
  }

  /** The batch rows whose key is not among `keys`, in batch order (the `~isin` filter). */
  function NewRows(rows: seq<Row>, keys: set<Key>): (r: seq<Row>)
    ensures |r| <= |rows|
  {
    if rows == [] then []
    else
      var p := NewRows(rows[..|rows| - 1], keys);
      if KeyOf(rows[|rows| - 1]) in keys then p else p + [rows[|rows| - 1]]
  }

  /** A row passes the filter exactly when it is in the batch and its key is not among `keys`. */
  lemma {:induction false} NewRowsMembers(rows: seq<Row>, keys: set<Key>)
    ensures forall x :: x in NewRows(rows, keys) <==> x in rows && KeyOf(x) !in keys
  {
    if rows != [] {
      var prefix := rows[..|rows| - 1];
      NewRowsMembers(prefix, keys);
      assert rows == prefix + [rows[|rows| - 1]];
    }
  }

  /** Filtering a deduplicated batch leaves it deduplicated. */
  lemma {:induction false} NewRowsUnique(rows: seq<Row>, keys: set<Key>)
    requires UniqueKeys(rows)
    ensures UniqueKeys(NewRows(rows, keys))
  {
    if rows != [] {
      var prefix := rows[..|rows| - 1];
      var last := rows[|rows| - 1];
      NewRowsUnique(prefix, keys);
      if KeyOf(last) !in keys {
        NewRowsMembers(prefix, keys);
        var p := NewRows(prefix, keys);
        forall x | x in p ensures KeyOf(x) != KeyOf(last) {
          var i :| 0 <= i < |prefix| && prefix[i] == x;
          assert rows[i] == x;
        }
      }
    }
  }

  /** When every key of the batch is among `keys`, nothing passes the filter. */
  lemma {:induction false} NewRowsOfKnownKeys(rows: seq<Row>, keys: set<Key>)
    requires forall x :: x in rows ==> KeyOf(x) in keys
    ensures NewRows(rows, keys) == []
  {
    if rows != [] {
      var prefix := rows[..|rows| - 1];
      assert forall x :: x in prefix ==> x in rows;
      NewRowsOfKnownKeys(prefix, keys);
      assert rows[|rows| - 1] in rows;
    }
  }

  /** The `books` table as a value: the stored books and the next `AUTOINCREMENT` id. */
  datatype Table = Table(books: seq<Book>, nextId: nat)

  /** One INSERT: the record gets the next id. */
  function Insert(t: Table, record: Row): Table {
    Table(t.books + [Book(t.nextId, record)], t.nextId + 1)
  }

  /**
   * The merge loop of models/book.py, corrected to bind by column name (the
   * loop as written is PositionalMerge.LiveMergeAsWritten): each
   * row, in order, is inserted when no book stored so far (including the ones
   * this loop inserted) has its (titel, isbn).
   */
  function LiveMerge(t: Table, rows: seq<Row>): (r: Table)
    ensures |t.books| <= |r.books| && r.books[..|t.books|] == t.books
  {
    if rows == [] then t
    else
      var p := LiveMerge(t, rows[..|rows| - 1]);
      var last := rows[|rows| - 1];
      if KeyOf(last) in StoredKeys(p.books) then p else Insert(p, RecordOf(last))
  }

  /** The snapshot merge of app.py: the rows whose key was not stored before the import, appended. */
  function SnapshotMerge(t: Table, rows: seq<Row>): Table {
    var unseen := NewRows(rows, StoredKeys(t.books));
    Table(t.books + Appended(unseen, t.nextId), t.nextId + |unseen|)
  }

  /** The live merge never stores a second book with a key already present, whatever the batch. */
  lemma {:induction false} LiveMergeKeepsKeysUnique(t: Table, rows: seq<Row>)
    requires UniqueStoredKeys(t.books)
    ensures UniqueStoredKeys(LiveMerge(t, rows).books)
    ensures LiveMerge(t, rows).books[..|t.books|] == t.books
    ensures StoredKeys(LiveMerge(t, rows).books) == StoredKeys(t.books) + KeySet(rows)
  {
    if rows != [] {
      var prefix := rows[..|rows| - 1];
      var last := rows[|rows| - 1];
      LiveMergeKeepsKeysUnique(t, prefix);
      var p := LiveMerge(t, prefix);
      if KeyOf(last) !in StoredKeys(p.books) {
        InsertKeepsKeysUnique(p, last);
      }
    }
    LiveMergeKeys(t, rows);
  }

  /** After the live merge the stored keys are the old ones plus every key of the batch. */
  lemma {:induction false} LiveMergeKeys(t: Table, rows: seq<Row>)
    ensures StoredKeys(LiveMerge(t, rows).books) == StoredKeys(t.books) + KeySet(rows)
  {
    if rows != [] {
      var prefix := rows[..|rows| - 1];
      var last := rows[|rows| - 1];
      assert rows == prefix + [last];
      KeySetAppend(prefix, last);
      LiveMergeKeys(t, prefix);
      var p := LiveMerge(t, prefix);
      if KeyOf(last) !in StoredKeys(p.books) {
        StoredKeysOfInsert(p, last);
      }
    }
  }

  /** A batch whose keys are all stored already changes nothing. */
  lemma {:induction false} LiveMergeOfStoredKeys(t: Table, rows: seq<Row>)
    requires forall x :: x in rows ==> KeyOf(x) in StoredKeys(t.books)
    ensures LiveMerge(t, rows) == t
  {
    if rows != [] {
      var prefix := rows[..|rows| - 1];
      assert forall x :: x in prefix ==> x in rows;
      LiveMergeOfStoredKeys(t, prefix);
      assert rows[|rows| - 1] in rows;
    }
  }

  /** Merging the same batch a second time stores nothing new. */
  lemma {:induction false} LiveMergeIsIdempotent(t: Table, rows: seq<Row>)
    ensures LiveMerge(LiveMerge(t, rows), rows) == LiveMerge(t, rows)
  {
    var u := LiveMerge(t, rows);
    LiveMergeKeys(t, rows);
    forall x | x in rows ensures KeyOf(x) in StoredKeys(u.books) {
      assert KeyOf(x) in KeySet(rows);
    }
    LiveMergeOfStoredKeys(u, rows);
  }

  lemma {:induction false} InsertKeepsKeysUnique(p: Table, row: Row)
    requires UniqueStoredKeys(p.books) && KeyOf(row) !in StoredKeys(p.books)
    ensures UniqueStoredKeys(Insert(p, RecordOf(row)).books)
  {
    RecordKeepsKey(row);
    assert forall i :: 0 <= i < |p.books| ==> KeyOf(p.books[i].record) in StoredKeys(p.books);
  }

  lemma {:induction false} StoredKeysOfInsert(p: Table, row: Row)
    ensures StoredKeys(Insert(p, RecordOf(row)).books) == StoredKeys(p.books) + {KeyOf(row)}
  {
    RecordKeepsKey(row);
    var b := Book(p.nextId, RecordOf(row));
    assert forall x :: x in p.books + [b] <==> x in p.books || x == b;
  }

  /**
   * With a deduplicated batch the two merge variants agree: checking each row
   * against the live table stores exactly what filtering against the keys
   * stored before the import stores. Both are the corrected merges, which
   * bind by name and compare keys as text; as written the live merge binds
   * by position (`PositionalMerge`) and the upload filter compares typed
   * cells (`TypedKeys`).
   */
  lemma {:induction false} LiveMergeMatchesSnapshot(t: Table, rows: seq<Row>)
    requires UniqueKeys(rows)
    ensures LiveMerge(t, rows) == SnapshotMerge(t, rows)
  {
    if rows != [] {
      var prefix := rows[..|rows| - 1];
      assert UniqueKeys(prefix);
      LiveMergeMatchesSnapshot(t, prefix);
      if KeyOf(rows[|rows| - 1]) in StoredKeys(t.books) {
        SkipStep(t, rows);
      } else {
        InsertStep(t, rows);
      }
    } else {
      SnapshotOfNothing(t);
    }
  }

  lemma {:induction false} SnapshotOfNothing(t: Table)
    ensures SnapshotMerge(t, []) == t
  {
    assert t.books + [] == t.books;
  }

  lemma {:induction false} SkipStep(t: Table, rows: seq<Row>)
    requires rows != []
    requires LiveMerge(t, rows[..|rows| - 1]) == SnapshotMerge(t, rows[..|rows| - 1])
    requires KeyOf(rows[|rows| - 1]) in StoredKeys(t.books)
    ensures LiveMerge(t, rows) == SnapshotMerge(t, rows)
  {
    LastStillStored(t, rows);
    LiveMergeSkips(t, rows);
    SnapshotSkips(t, rows);
  }

  lemma {:induction false} LastStillStored(t: Table, rows: seq<Row>)
    requires rows != []
    requires LiveMerge(t, rows[..|rows| - 1]) == SnapshotMerge(t, rows[..|rows| - 1])
    requires KeyOf(rows[|rows| - 1]) in StoredKeys(t.books)
    ensures KeyOf(rows[|rows| - 1]) in StoredKeys(LiveMerge(t, rows[..|rows| - 1]).books)
  {
    StillStored(t, rows[..|rows| - 1], KeyOf(rows[|rows| - 1]));
  }

  lemma {:induction false} StillStored(t: Table, rows: seq<Row>, k: Key)
    requires k in StoredKeys(t.books)
    ensures k in StoredKeys(SnapshotMerge(t, rows).books)
  {
    StoredKeysOfAppend(t.books, NewRows(rows, StoredKeys(t.books)), t.nextId);
  }

  lemma {:induction false} InsertStep(t: Table, rows: seq<Row>)
    requires rows != [] && UniqueKeys(rows)
    requires LiveMerge(t, rows[..|rows| - 1]) == SnapshotMerge(t, rows[..|rows| - 1])
    requires KeyOf(rows[|rows| - 1]) !in StoredKeys(t.books)
    ensures LiveMerge(t, rows) == SnapshotMerge(t, rows)
  {
    LastNotStored(t, rows);
    LiveMergeInserts(t, rows);
    SnapshotAppendsLast(t, rows);
  }

  lemma {:induction false} SnapshotAppendsLast(t: Table, rows: seq<Row>)
    requires rows != []
    requires KeyOf(rows[|rows| - 1]) !in StoredKeys(t.books)
    ensures SnapshotMerge(t, rows) == Insert(SnapshotMerge(t, rows[..|rows| - 1]), RecordOf(rows[|rows| - 1]))
  {
    var unseen := NewRows(rows[..|rows| - 1], StoredKeys(t.books));
    assert SnapshotMerge(t, rows[..|rows| - 1]) == Table(t.books + Appended(unseen, t.nextId), t.nextId + |unseen|);
    SnapshotInserts(t, rows);
    SnapshotInsert(t, unseen, rows[|rows| - 1]);
  }

  lemma {:induction false} LastNotStored(t: Table, rows: seq<Row>)
    requires rows != [] && UniqueKeys(rows)
    requires LiveMerge(t, rows[..|rows| - 1]) == SnapshotMerge(t, rows[..|rows| - 1])
    requires KeyOf(rows[|rows| - 1]) !in StoredKeys(t.books)
    ensures KeyOf(rows[|rows| - 1]) !in StoredKeys(LiveMerge(t, rows[..|rows| - 1]).books)
  {
    var prefix := rows[..|rows| - 1];
    StoredKeysOfAppend(t.books, NewRows(prefix, StoredKeys(t.books)), t.nextId);
    LastKeyIsNew(rows, StoredKeys(t.books));
  }

  lemma LiveMergeSkips(t: Table, rows: seq<Row>)
    requires rows != []
    requires KeyOf(rows[|rows| - 1]) in StoredKeys(LiveMerge(t, rows[..|rows| - 1]).books)
    ensures LiveMerge(t, rows) == LiveMerge(t, rows[..|rows| - 1])
  {
  }

  lemma LiveMergeInserts(t: Table, rows: seq<Row>)
    requires rows != []
    requires KeyOf(rows[|rows| - 1]) !in StoredKeys(LiveMerge(t, rows[..|rows| - 1]).books)
    ensures LiveMerge(t, rows) == Insert(LiveMerge(t, rows[..|rows| - 1]), RecordOf(rows[|rows| - 1]))
  {
  }

  lemma {:induction false} SnapshotSkips(t: Table, rows: seq<Row>)
    requires rows != []
    requires KeyOf(rows[|rows| - 1]) in StoredKeys(t.books)
    ensures SnapshotMerge(t, rows) == SnapshotMerge(t, rows[..|rows| - 1])
  {
    NewRowsStep(rows, StoredKeys(t.books));
  }

  lemma {:induction false} SnapshotInserts(t: Table, rows: seq<Row>)
    requires rows != []
    requires KeyOf(rows[|rows| - 1]) !in StoredKeys(t.books)
    ensures NewRows(rows, StoredKeys(t.books)) == NewRows(rows[..|rows| - 1], StoredKeys(t.books)) + [rows[|rows| - 1]]
  {
    NewRowsStep(rows, StoredKeys(t.books));
  }

  lemma {:induction false} SnapshotInsert(t: Table, unseen: seq<Row>, row: Row)
    ensures Insert(Table(t.books + Appended(unseen, t.nextId), t.nextId + |unseen|), RecordOf(row))
         == Table(t.books + Appended(unseen + [row], t.nextId), t.nextId + |unseen + [row]|)
  {
    AppendedStep(unseen, row, t.nextId);
  }

  /** In a deduplicated batch the last row's key is not among the earlier rows that pass the filter. */
  lemma {:induction false} LastKeyIsNew(rows: seq<Row>, keys: set<Key>)
    requires rows != [] && UniqueKeys(rows)
    ensures KeyOf(rows[|rows| - 1]) !in KeySet(NewRows(rows[..|rows| - 1], keys))
  {
    var prefix := rows[..|rows| - 1];
    NewRowsMembers(prefix, keys);
    forall x | x in NewRows(prefix, keys) ensures KeyOf(x) != KeyOf(rows[|rows| - 1]) {
      var i :| 0 <= i < |prefix| && prefix[i] == x;
      assert rows[i] == x;
    }
  }

  lemma NewRowsStep(rows: seq<Row>, keys: set<Key>)
    requires rows != []
    ensures NewRows(rows, keys) == if KeyOf(rows[|rows| - 1]) in keys then NewRows(rows[..|rows| - 1], keys)
                                   else NewRows(rows[..|rows| - 1], keys) + [rows[|rows| - 1]]
  {
  }

  lemma {:induction false} AppendedStep(rows: seq<Row>, row: Row, start: nat)
    ensures Appended(rows + [row], start) == Appended(rows, start) + [Book(start + |rows|, RecordOf(row))]
  {
    assert (rows + [row])[..|rows|] == rows;
  }

  /** The snapshot merge adds no key twice when the batch is deduplicated. */
  lemma {:induction false} SnapshotMergeKeepsKeysUnique(t: Table, rows: seq<Row>)
    requires UniqueStoredKeys(t.books) && UniqueKeys(rows)
    ensures UniqueStoredKeys(SnapshotMerge(t, rows).books)
  {
    LiveMergeMatchesSnapshot(t, rows);
    LiveMergeKeepsKeysUnique(t, rows);
  }

  /** Importing the same batch a second time in merge mode stores nothing new. */
  lemma {:induction false} MergeIsIdempotent(t: Table, rows: seq<Row>)
    ensures NewRows(rows, StoredKeys(SnapshotMerge(t, rows).books)) == []
    ensures SnapshotMerge(SnapshotMerge(t, rows), rows) == SnapshotMerge(t, rows)
  {
    var unseen := NewRows(rows, StoredKeys(t.books));
    StoredKeysOfAppend(t.books, unseen, t.nextId);
    NewRowsMembers(rows, StoredKeys(t.books));
    var u := SnapshotMerge(t, rows);
    forall x | x in rows ensures KeyOf(x) in StoredKeys(u.books) {
      if KeyOf(x) !in StoredKeys(t.books) {
        assert x in unseen;
      }
    }
    NewRowsOfKnownKeys(rows, StoredKeys(u.books));
    assert u.books + Appended([], u.nextId) == u.books;
  }

  // ---------------------------------------------------------------------------
  // The table invariant

  /** A stored record has a value for every table column. */
  ghost predicate IsRecord(r: Row) {
    r.Keys == ColumnSet(SchemaColumns)
  }

  /**
   * What `id INTEGER PRIMARY KEY AUTOINCREMENT` guarantees: ids are at least 1,
   * increase along the table and stay below the next id to hand out; every
   * stored record has all table columns.
   */
  ghost predicate ValidTable(t: Table) {
    && 1 <= t.nextId
    && (forall i :: 0 <= i < |t.books| ==> 1 <= t.books[i].id < t.nextId)
    && Ascending(t.books)
    && (forall i :: 0 <= i < |t.books| ==> IsRecord(t.books[i].record))
  }

  /** Ids strictly increase along the table. */
  ghost predicate Ascending(books: seq<Book>) {
    |books| <= 1 || (Ascending(books[..|books| - 1]) && books[|books| - 2].id < books[|books| - 1].id)
  }

  /** In an ascending table an earlier book has a smaller id. */
  lemma {:induction false} AscendingOrders(books: seq<Book>, i: nat, j: nat)
    requires Ascending(books) && i < j < |books|
    ensures books[i].id < books[j].id
  {
    var prefix := books[..|books| - 1];
    if j < |books| - 1 {
      AscendingOrders(prefix, i, j);
    } else if i < j - 1 {
      AscendingOrders(prefix, i, j - 1);
    }
  }

  /** A table whose ids increase pairwise is ascending. */
  lemma {:induction false} AscendingIfOrdered(books: seq<Book>)
    requires forall j, k :: 0 <= j < k < |books| ==> books[j].id < books[k].id
    ensures Ascending(books)
  {
    if |books| > 1 {
      AscendingIfOrdered(books[..|books| - 1]);
    }
  }

  lemma {:induction false} InsertKeepsValid(t: Table, record: Row)
    requires ValidTable(t) && IsRecord(record)
    ensures ValidTable(Insert(t, record))
  {
    assert Insert(t, record).books[..|t.books|] == t.books;
  }

  /** Appending a batch keeps the table valid. */
  lemma {:induction false} AppendKeepsValid(t: Table, rows: seq<Row>)
    requires ValidTable(t)
    ensures ValidTable(Table(t.books + Appended(rows, t.nextId), t.nextId + |rows|))
  {
    if rows != [] {
      AppendKeepsValid(t, rows[..|rows| - 1]);
      AppendOneKeepsValid(t, rows);
    } else {
      AppendNothing(t, rows);
    }
  }

  lemma {:induction false} AppendOneKeepsValid(t: Table, rows: seq<Row>)
    requires rows != []
    requires ValidTable(Table(t.books + Appended(rows[..|rows| - 1], t.nextId), t.nextId + |rows| - 1))
    ensures ValidTable(Table(t.books + Appended(rows, t.nextId), t.nextId + |rows|))
  {
    var p := Table(t.books + Appended(rows[..|rows| - 1], t.nextId), t.nextId + |rows| - 1);
    InsertKeepsValid(p, RecordOf(rows[|rows| - 1]));
    AppendedInsert(t, rows);
  }

  lemma AppendNothing(t: Table, rows: seq<Row>)
    requires rows == []
    ensures Table(t.books + Appended(rows, t.nextId), t.nextId + |rows|) == t
  {
    assert t.books + [] == t.books;
  }

  lemma {:induction false} AppendedInsert(t: Table, rows: seq<Row>)
    requires rows != []
    ensures Table(t.books + Appended(rows, t.nextId), t.nextId + |rows|)
         == Insert(Table(t.books + Appended(rows[..|rows| - 1], t.nextId), t.nextId + |rows| - 1), RecordOf(rows[|rows| - 1]))
  {
    var prefix := rows[..|rows| - 1];
    var b := Book(t.nextId + |prefix|, RecordOf(rows[|rows| - 1]));
    assert Appended(rows, t.nextId) == Appended(prefix, t.nextId) + [b];
    assert t.books + (Appended(prefix, t.nextId) + [b]) == (t.books + Appended(prefix, t.nextId)) + [b];
  }

  /** A table holding only a freshly appended batch is valid. */
  lemma {:induction false} FreshTableValid(rows: seq<Row>, start: nat)
    requires 1 <= start
    ensures ValidTable(Table(Appended(rows, start), start + |rows|))
  {
    AppendKeepsValid(Table([], start), rows);
    assert [] + Appended(rows, start) == Appended(rows, start);
  }

  /** The live merge keeps the table valid. */
  lemma {:induction false} LiveMergeKeepsValid(t: Table, rows: seq<Row>)
    requires ValidTable(t)
    ensures ValidTable(LiveMerge(t, rows))
  {
    if rows != [] {
      LiveMergeKeepsValid(t, rows[..|rows| - 1]);
      if KeyOf(rows[|rows| - 1]) !in StoredKeys(LiveMerge(t, rows[..|rows| - 1]).books) {
        InsertKeepsValid(LiveMerge(t, rows[..|rows| - 1]), RecordOf(rows[|rows| - 1]));
      }
    }
  }

  /** Two books of a valid table never share an id. */
  lemma {:induction false} IdsAreUnique(t: Table, i: nat, j: nat)
    requires ValidTable(t) && i < |t.books| && j < |t.books| && t.books[i].id == t.books[j].id
    ensures i == j
  {
    if i < j {
      AscendingOrders(t.books, i, j);
    } else if j < i {
      AscendingOrders(t.books, j, i);
    }
  }

  // ---------------------------------------------------------------------------
  // The reconciling writer, as functions of the table before the import

  /** What the loader reports. */
  datatype ImportOutcome =
    | Imported(count: nat)     // every row written: "{n} boeken geïmporteerd"
    | MergedNew                // models/book.py merge: "Nieuwe boeken toegevoegd uit CSV"
    | MergedCount(count: nat)  // app.py merge: "{n} nieuwe boeken toegevoegd"
    | NothingNew               // app.py merge without new rows
    | Failed(error: ImportError)

  /**
   * The frame columns that are not among the seventeen data columns, in frame
   * order. The table's `id` column is not one of them, so a frame column named
   * `id` is counted here too.
   */
  function Unknown(columns: seq<string>): (u: seq<string>)
    ensures |u| <= |columns|
  {
    if columns == [] then []
    else
      var rest := Unknown(columns[..|columns| - 1]);
      var last := columns[|columns| - 1];
      if last in SchemaColumns then rest else rest + [last]
  }

  /** A column is reported as unknown exactly when the frame has it and it is not a data column. */
  lemma {:induction false} UnknownColumnsAreUnknown(columns: seq<string>, c: string)
    ensures c in Unknown(columns) <==> c in columns && c !in SchemaColumns
  {
    if columns != [] {
      var prefix := columns[..|columns| - 1];
      UnknownColumnsAreUnknown(prefix, c);
      assert columns == prefix + [columns[|columns| - 1]];
    }
  }

  /**
   * `DELETE FROM books` (when there is anything to delete) followed by
   * `to_sql(if_exists='append')` of the whole frame. `to_sql` names the
   * frame's columns, so a column the table lacks makes it fail, and the
   * transaction, the DELETE included, is rolled back; an empty frame writes
   * nothing. `AUTOINCREMENT` does not reuse the ids of deleted books.
   */
  function WriteAll(t: Table, f: Frame): (Table, ImportOutcome) {
    if Unknown(f.columns) != [] && f.rows != [] then (t, Failed(UnknownColumns(Unknown(f.columns))))
    else (Table(Appended(f.rows, t.nextId), t.nextId + |f.rows|), Imported(|f.rows|))
  }

  /**
   * The writer of models/book.py, with the merge corrected to bind by name:
   * overwrite or an empty store writes all, otherwise the live merge. The
   * merge's INSERT names the frame's columns, so once it has a row to insert,
   * a column the table lacks makes that INSERT fail, and the batch is never
   * committed. As written, the extra column fails the same INSERT too, as
   * a seventeen-placeholder statement given more values.
   */
  function Written(t: Table, f: Frame, overwrite: bool): (Table, ImportOutcome) {
    if overwrite || t.books == [] then WriteAll(t, f)
    else
      var merged := LiveMerge(t, f.rows);
      if Unknown(f.columns) != [] && merged != t then (t, Failed(UnknownColumns(Unknown(f.columns))))
      else (merged, MergedNew)
  }

  /** The writer of app.py: as above, but the merge appends the rows new to the snapshot of stored keys. */
  function SnapshotWritten(t: Table, f: Frame, overwrite: bool): (Table, ImportOutcome) {
    if overwrite || t.books == [] then WriteAll(t, f)
    else
      var unseen := NewRows(f.rows, StoredKeys(t.books));
      if unseen == [] then (t, NothingNew)
      else if Unknown(f.columns) != [] then (t, Failed(UnknownColumns(Unknown(f.columns))))
      else (SnapshotMerge(t, f.rows), MergedCount(|unseen|))
  }

  /** Writing all rows replaces the store by exactly the batch, reports its size, and keeps ids fresh. */
  lemma {:induction false} WriteAllReplacesStore(t: Table, f: Frame, overwrite: bool)
    requires overwrite || t.books == []
    requires Unknown(f.columns) == [] || f.rows == []
    ensures Written(t, f, overwrite).1 == Imported(|f.rows|)
    ensures |Written(t, f, overwrite).0.books| == |f.rows|
    ensures forall i :: 0 <= i < |f.rows| ==> Written(t, f, overwrite).0.books[i] == Book(t.nextId + i, RecordOf(f.rows[i]))
    ensures SnapshotWritten(t, f, overwrite) == Written(t, f, overwrite)
  {
    AppendedRecords(f.rows, t.nextId);
  }

  /** The i-th appended book stores the i-th row. */
  lemma {:induction false} AppendedRecords(rows: seq<Row>, start: nat)
    ensures forall i :: 0 <= i < |rows| ==> Appended(rows, start)[i] == Book(start + i, RecordOf(rows[i]))
  {
    if rows != [] {
      AppendedRecords(rows[..|rows| - 1], start);
    }
  }

  /** A failed write-all leaves the store as it was, the prior books included. */
  lemma WriteAllFailureKeepsStore(t: Table, f: Frame, overwrite: bool)
    requires overwrite || t.books == []
    requires Unknown(f.columns) != [] && f.rows != []
    ensures Written(t, f, overwrite) == (t, Failed(UnknownColumns(Unknown(f.columns))))
    ensures SnapshotWritten(t, f, overwrite) == Written(t, f, overwrite)
  {
  }

  /**
   * The merge keeps every stored book and never duplicates a key. Without
   * unknown columns it succeeds and adds exactly the keys of the batch; a
   * failed merge changes nothing.
   */
  lemma {:induction false} MergeAddsOnlyNewKeys(t: Table, f: Frame)
    requires t.books != [] && UniqueStoredKeys(t.books)
    ensures Written(t, f, false).0.books[..|t.books|] == t.books
    ensures UniqueStoredKeys(Written(t, f, false).0.books)
    ensures Unknown(f.columns) == [] ==> Written(t, f, false).1 == MergedNew
    ensures Written(t, f, false).1 == MergedNew ==>
              StoredKeys(Written(t, f, false).0.books) == StoredKeys(t.books) + KeySet(f.rows)
    ensures Written(t, f, false).1 != MergedNew ==> Written(t, f, false).0 == t
  {
    LiveMergeKeepsKeysUnique(t, f.rows);
    if LiveMerge(t, f.rows) == t {
      assert t.books[..|t.books|] == t.books;
    }
  }

  /** The table's own columns are never unknown. */
  lemma SchemaColumnsAreKnown()
    ensures Unknown(SchemaColumns) == []
  {
    if Unknown(SchemaColumns) != [] {
      UnknownColumnsAreUnknown(SchemaColumns, Unknown(SchemaColumns)[0]);
    }
  }

  /**
   * On a deduplicated batch without unknown columns both writers leave the
   * same store, with the library writer corrected to bind by name. As written
   * they agree only for frames in table order
   * (`PositionalMerge.WritersAgreeInSchemaOrder`).
   */
  lemma {:induction false} WritersAgree(t: Table, f: Frame, overwrite: bool)
    requires UniqueKeys(f.rows) && Unknown(f.columns) == []
    ensures Written(t, f, overwrite).0 == SnapshotWritten(t, f, overwrite).0
  {
    if !overwrite && t.books != [] {
      LiveMergeMatchesSnapshot(t, f.rows);
      if NewRows(f.rows, StoredKeys(t.books)) == [] {
        assert t.books + Appended([], t.nextId) == t.books;
      }
    }
  }

  /** The merge branch of the snapshot writer appends the new rows and keeps the table valid. */
  lemma {:induction false} SnapshotAppends(t: Table, f: Frame)
    requires ValidTable(t) && t.books != []
    requires NewRows(f.rows, StoredKeys(t.books)) != [] && Unknown(f.columns) == []
    ensures SnapshotWritten(t, f, false) == (SnapshotMerge(t, f.rows), MergedCount(|NewRows(f.rows, StoredKeys(t.books))|))
    ensures SnapshotMerge(t, f.rows)
            == Table(t.books + Appended(NewRows(f.rows, StoredKeys(t.books)), t.nextId), t.nextId + |NewRows(f.rows, StoredKeys(t.books))|)
    ensures ValidTable(SnapshotMerge(t, f.rows))
  {
    AppendKeepsValid(t, NewRows(f.rows, StoredKeys(t.books)));
  }

  /** The snapshot merge reports how many books it added; with none it leaves the store alone. */
  lemma SnapshotMergeCounts(t: Table, f: Frame)
    requires t.books != [] && Unknown(f.columns) == []
    ensures var (u, outcome) := SnapshotWritten(t, f, false);
            && |u.books| == |t.books| + |NewRows(f.rows, StoredKeys(t.books))|
            && u.books[..|t.books|] == t.books
            && (outcome == NothingNew <==> u == t)
            && (outcome != NothingNew ==> outcome == MergedCount(|u.books| - |t.books|))
  {
    var unseen := NewRows(f.rows, StoredKeys(t.books));
    assert (t.books + Appended(unseen, t.nextId))[..|t.books|] == t.books;
  }

  /** `load_csv_to_db` of models/book.py: a refused upload reports why and leaves the store alone. */
  function Loaded(t: Table, prepared: Result<Frame, ImportError>, overwrite: bool): (Table, ImportOutcome) {
    match prepared
    case Err(e) => (t, Failed(e))
    case Ok(f) => Written(t, f, overwrite)
  }

  /** The upload branch of `load_csv_to_db` in app.py. */
  function SnapshotLoaded(t: Table, prepared: Result<Frame, ImportError>, overwrite: bool): (Table, ImportOutcome) {
    match prepared
    case Err(e) => (t, Failed(e))
    case Ok(f) => SnapshotWritten(t, f, overwrite)
  }

  /** An upload without a title column is refused by both loaders, and nothing is written. */
  lemma UntitledUploadIsRefused(t: Table, bytes: seq<bv8>, decode: Decoder, read: Reader, now: string, overwrite: bool)
    requires ReadOutcome(bytes, decode, read).Ok?
    requires "titel" !in MapHeaders(ReadOutcome(bytes, decode, read).value.header)
    ensures Loaded(t, Preparation(Some(bytes), decode, read, now), overwrite) == (t, Failed(MissingRequired(["titel"])))
    ensures SnapshotLoaded(t, Preparation(Some(bytes), decode, read, now), overwrite) == (t, Failed(MissingRequired(["titel"])))
  {
  }

  /** Importing never makes two stored books share a (titel, isbn) key. */
  lemma {:induction false} LoadKeepsKeysUnique(t: Table, prepared: Result<Frame, ImportError>, overwrite: bool)
    requires UniqueStoredKeys(t.books)
    requires prepared.Ok? ==> Prepared(prepared.value)
    ensures UniqueStoredKeys(Loaded(t, prepared, overwrite).0.books)
  {
    if prepared.Ok? {
      if overwrite || t.books == [] {
        AppendedKeepsKeysUnique(prepared.value.rows, t.nextId);
      } else {
        LiveMergeKeepsKeysUnique(t, prepared.value.rows);
      }
    }
  }

  /** The same for the loader of app.py. */
  lemma {:induction false} SnapshotLoadKeepsKeysUnique(t: Table, prepared: Result<Frame, ImportError>, overwrite: bool)
    requires UniqueStoredKeys(t.books)
    requires prepared.Ok? ==> Prepared(prepared.value)
    ensures UniqueStoredKeys(SnapshotLoaded(t, prepared, overwrite).0.books)
  {
    if prepared.Ok? {
      if overwrite || t.books == [] {
        AppendedKeepsKeysUnique(prepared.value.rows, t.nextId);
      } else {
        SnapshotMergeKeepsKeysUnique(t, prepared.value.rows);
      }
    }
  }

  /** A batch without duplicate keys is stored without duplicate keys. */
  lemma {:induction false} AppendedKeepsKeysUnique(rows: seq<Row>, start: nat)
    requires UniqueKeys(rows)
    ensures UniqueStoredKeys(Appended(rows, start))
  {
    AppendedKeys(rows, start);
  }
}
