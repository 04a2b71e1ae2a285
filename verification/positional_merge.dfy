/**
 * The merge loop of `load_csv_to_db` in models/book.py as it is written: each
 * new row is stored with `INSERT INTO books (<the 17 table columns>) VALUES
 * (?, ...)` and `tuple(row)`, which binds the row's values by position, in
 * the frame's column order. The frame's order is the upload's header order
 * followed by the columns the fill added, so it matches the table's order
 * only by accident. BookStore.LiveMerge is the corrected loop, binding by
 * name; this module shows where the two part.
 */
module PositionalMerge {
  import opened Wrappers
  import opened Text
  import opened Frames
  import opened CsvImport
  import opened BookStore

  /**
   * The record `tuple(row)` stores: the value in the frame's i-th column goes
   * to the table's i-th column. Any other number of values than the 17
   * placeholders is sqlite's "Incorrect number of bindings supplied".
   */
  function PositionalRecord(columns: seq<string>, row: Row): (r: Result<Row, ImportError>)
    ensures r.Ok? <==> |columns| == |SchemaColumns|
    ensures r.Ok? ==> r.value.Keys == ColumnSet(SchemaColumns)
    ensures r.Err? ==> r.error == BindingCount(|columns|)
  {
    if |columns| != |SchemaColumns| then Err(BindingCount(|columns|))
    else Ok(map c | c in SchemaColumns :: Get(row, columns[Position(SchemaColumns, c)]))
  }

  /**
   * The loop as written: a row whose (titel, isbn) is not stored yet is
   * inserted positionally. A binding error aborts the import before the
   * commit, so nothing of the batch stays.
   */
  function LiveMergeAsWritten(t: Table, columns: seq<string>, rows: seq<Row>): Result<Table, ImportError>
  {
    if rows == [] then Ok(t)
    else
      match LiveMergeAsWritten(t, columns, rows[..|rows| - 1])
      case Err(e) => Err(e)
      case Ok(p) =>
        var last := rows[|rows| - 1];
        if KeyOf(last) in StoredKeys(p.books) then Ok(p)
        else
          match PositionalRecord(columns, last)
          case Err(e) => Err(e)
          case Ok(record) => Ok(Insert(p, record))
  }

  /** The writer of models/book.py as written. */
  function WrittenAsWritten(t: Table, f: Frame, overwrite: bool): (Table, ImportOutcome) {
    if overwrite || t.books == [] then WriteAll(t, f)
    else
      match LiveMergeAsWritten(t, f.columns, f.rows)
      case Err(e) => (t, Failed(e))
      case Ok(u) => (u, MergedNew)
  }

  /** When the frame's columns are exactly the table's, in its order, positional and by-name binding agree. */
  lemma {:induction false} PositionalAgreesInSchemaOrder(t: Table, rows: seq<Row>)
    ensures LiveMergeAsWritten(t, SchemaColumns, rows) == Ok(LiveMerge(t, rows))
  {
    if rows != [] {
      PositionalAgreesInSchemaOrder(t, rows[..|rows| - 1]);
      SchemaOrderRecord(rows[|rows| - 1]);
    }
  }

  lemma SchemaOrderRecord(row: Row)
    ensures PositionalRecord(SchemaColumns, row) == Ok(RecordOf(row))
  {
    var m := map c | c in SchemaColumns :: Get(row, SchemaColumns[Position(SchemaColumns, c)]);
    InOwnOrder(SchemaColumns, row);
    assert m == RecordOf(row);
    assert PositionalRecord(SchemaColumns, row) == Ok(m);
  }

  lemma InOwnOrder(names: seq<string>, row: Row)
    ensures (map c | c in names :: Get(row, names[Position(names, c)])) == (map c | c in names :: Get(row, c))
  {
  }

  /** So do the two writers. */
  lemma {:induction false} WritersAgreeInSchemaOrder(t: Table, f: Frame, overwrite: bool)
    requires f.columns == SchemaColumns
    ensures WrittenAsWritten(t, f, overwrite) == Written(t, f, overwrite)
  {
    PositionalAgreesInSchemaOrder(t, f.rows);
    SchemaColumnsAreKnown();
  }

  /** The header of an upload `Titel;ISBN` and its one record `T;9`, as the reader yields them. */
  const UploadHeader: seq<string> := ["Titel", "ISBN"]
  const UploadRecords: seq<seq<string>> := [["T", "9"]]

  /** The upload's header after clean-up and mapping. */
  const UploadColumns: seq<string> := ["titel", "isbn"]

  /**
   * The column order of the frame prepared from that upload: the two mapped
   * headers, then the 14 other expected columns as the fill adds them, then
   * `added_date`.
   */
  const TitleIsbnColumns: seq<string> := [
    "titel", "isbn", "auteur_voornaam", "auteur_achternaam", "genre", "prijs", "paginas",
    "bindwijze", "edition", "reeks_nr", "uitgeverij", "serie", "staat", "taal",
    "gesigneerd", "gelezen", "added_date"]

  /** The frame the preparation hands to the writer for that upload, stamped at `now`. */
  function UploadFrame(now: string): Frame {
    PreparedFrame(UploadColumns, UploadRecords, now)
  }

  /** `Titel` and `ISBN` are synonyms of `titel` and `isbn`. */
  lemma UploadHeaderMapped()
    ensures MapHeaders(UploadHeader) == UploadColumns
  {
    TitelAndIsbnAreSynonyms();
    PlainHeader("Titel");
    PlainHeader("ISBN");
    HeaderMapped("Titel", "titel");
    HeaderMapped("ISBN", "isbn");
    MappedPair(UploadHeader, UploadColumns);
  }

  lemma MappedPair(header: seq<string>, columns: seq<string>)
    requires |header| == 2 && |columns| == 2
    requires MapHeader(CleanHeader(header[0])) == columns[0] && MapHeader(CleanHeader(header[1])) == columns[1]
    ensures MapHeaders(header) == columns
  {
  }

  lemma TitelAndIsbnAreSynonyms()
    ensures "Titel" in ColumnMapping && ColumnMapping["Titel"] == "titel"
    ensures "ISBN" in ColumnMapping && ColumnMapping["ISBN"] == "isbn"
  {
  }

  lemma PlainHeader(h: string)
    requires h == "Titel" || h == "ISBN"
    ensures h != [] && BOM !in h && !IsSpace(h[0]) && !IsSpace(h[|h| - 1])
  {
  }

  lemma HeaderMapped(h: string, c: string)
    requires h != [] && BOM !in h && !IsSpace(h[0]) && !IsSpace(h[|h| - 1])
    requires h in ColumnMapping && ColumnMapping[h] == c
    ensures MapHeader(CleanHeader(h)) == c
  {
    StripTrimmed(h);
  }

  /** The columns the fill loop leaves: `columns`, then each missing name of `expected` in its order. */
  function FilledColumns(columns: seq<string>, expected: seq<string>): seq<string>
    decreases |expected|
  {
    if expected == [] then columns
    else FilledColumns(if expected[0] in columns then columns else columns + [expected[0]], expected[1..])
  }

  lemma {:induction false} FillFromColumns(f: Frame, expected: seq<string>)
    requires WellFormed(f)
    ensures FillFrom(f, expected).columns == FilledColumns(f.columns, expected)
    decreases |expected|
  {
    if expected != [] {
      var next := if expected[0] in f.columns then f else AddColumn(f, expected[0], Str(""));
      FillFromColumns(next, expected[1..]);
    }
  }

  /** Filling in distinct names that are all missing appends them in their order. */
  lemma {:induction false} FillAppends(columns: seq<string>, names: seq<string>)
    requires Distinct(names) && forall x :: x in names ==> x !in columns
    ensures FilledColumns(columns, names) == columns + names
    decreases |names|
  {
    if names != [] {
      var next := columns + [names[0]];
      forall x | x in names[1..] ensures x !in next {
        var i :| 0 <= i < |names[1..]| && names[1..][i] == x;
        assert names[i + 1] == x;
      }
      FillAppends(next, names[1..]);
      assert next + names[1..] == columns + names;
    }
  }

  /** The fill over two lists of names is the fill over the first, then over the second. */
  lemma {:induction false} FillSplit(columns: seq<string>, xs: seq<string>, ys: seq<string>)
    ensures FilledColumns(columns, xs + ys) == FilledColumns(FilledColumns(columns, xs), ys)
    decreases |xs|
  {
    if xs == [] {
      assert xs + ys == ys;
    } else {
      assert (xs + ys)[0] == xs[0] && (xs + ys)[1..] == xs[1..] + ys;
      var next := if xs[0] in columns then columns else columns + [xs[0]];
      FillSplit(next, xs[1..], ys);
    }
  }

  /** The expected columns around `isbn`: the seven before it after `titel`, and the seven after it. */
  const NamesBeforeIsbn: seq<string> := [
    "auteur_voornaam", "auteur_achternaam", "genre", "prijs", "paginas", "bindwijze", "edition"]
  const NamesAfterIsbn: seq<string> := [
    "reeks_nr", "uitgeverij", "serie", "staat", "taal", "gesigneerd", "gelezen"]

  lemma ExpectedAroundIsbn()
    ensures ExpectedColumns == ["titel"] + NamesBeforeIsbn + ["isbn"] + NamesAfterIsbn
    ensures TitleIsbnColumns[..16] == UploadColumns + NamesBeforeIsbn + NamesAfterIsbn
  {
  }

  lemma NamesAreMissing()
    ensures Distinct(NamesBeforeIsbn) && forall x :: x in NamesBeforeIsbn ==> x !in UploadColumns
    ensures Distinct(NamesAfterIsbn) && forall x :: x in NamesAfterIsbn ==> x !in UploadColumns + NamesBeforeIsbn
  {
  }

  lemma UploadFill()
    ensures FilledColumns(UploadColumns, ExpectedColumns) == TitleIsbnColumns[..16]
  {
    ExpectedAroundIsbn();
    NamesAreMissing();
    FillAroundPresent(UploadColumns, NamesBeforeIsbn, NamesAfterIsbn, "titel", "isbn");
  }

  /** Filling `a`, then names all missing, then `b`, then more missing names, when `a` and `b` are present. */
  lemma FillAroundPresent(u: seq<string>, before: seq<string>, after: seq<string>, a: string, b: string)
    requires a in u && b in u
    requires Distinct(before) && forall x :: x in before ==> x !in u
    requires Distinct(after) && forall x :: x in after ==> x !in u + before
    ensures FilledColumns(u, [a] + before + [b] + after) == u + before + after
  {
    FillPresent(u, a);
    FillAppends(u, before);
    FillSplit(u, [a], before);
    var v := u + before;
    FillPresent(v, b);
    FillSplit(u, [a] + before, [b]);
    FillAppends(v, after);
    FillSplit(u, [a] + before + [b], after);
  }

  lemma FillPresent(columns: seq<string>, x: string)
    requires x in columns
    ensures FilledColumns(columns, [x]) == columns
  {
    assert [x][1..] == [];
  }

  /** When the upload has no `added_date`, the finishing stages append it as the last column. */
  lemma FinishColumns(filled: Frame, now: string)
    requires WellFormed(filled) && AddedDate !in filled.columns
    ensures Finish(filled, now).columns == filled.columns + [AddedDate]
  {
  }

  lemma AddedDateIsNotFilled()
    ensures AddedDate !in TitleIsbnColumns[..16]
    ensures TitleIsbnColumns[..16] + [AddedDate] == TitleIsbnColumns
  {
  }

  /** The preparation of the `Titel;ISBN` upload yields exactly the column order above. */
  lemma UploadFrameColumns(now: string)
    ensures UploadFrame(now).columns == TitleIsbnColumns
  {
    var raw := ToFrame(UploadColumns, UploadRecords);
    FillFromColumns(raw, ExpectedColumns);
    UploadFill();
    AddedDateIsNotFilled();
    FinishColumns(FillFrom(raw, ExpectedColumns), now);
  }

  /**
   * The preparation of that upload yields one row, with title `T`, ISBN `9`
   * and the filled, empty `auteur_voornaam` and `edition`.
   */
  lemma UploadFrameRow(now: string) returns (r: Row)
    ensures UploadFrame(now).rows == [r]
    ensures Get(r, "titel") == Str("T") && Get(r, "isbn") == Str("9")
    ensures Get(r, "auteur_voornaam") == Str("") && Get(r, "edition") == Str("")
  {
    var raw := ToFrame(UploadColumns, UploadRecords);
    RawUploadRow(raw.rows[0], raw);
    var filled := FillFrom(raw, ExpectedColumns);
    FourColumnsExpected();
    FilledUploadRow(raw, ExpectedColumns, filled);
    r := FinishOfOneRow(filled, now);
    TextCellsSurvive(filled.rows[0], r);
  }

  lemma RawUploadRow(read: Row, raw: Frame)
    requires raw == ToFrame(UploadColumns, UploadRecords) && read == raw.rows[0]
    ensures |raw.rows| == 1 && WellFormed(raw)
    ensures Get(read, "titel") == Str("T") && Get(read, "isbn") == Str("9")
    ensures Get(read, "auteur_voornaam") == Str("") && Get(read, "edition") == Str("")
  {
    assert UploadColumns[0] == "titel" && UploadColumns[1] == "isbn";
    assert read.Keys == {"titel", "isbn"};
  }

  lemma FilledUploadRow(raw: Frame, expected: seq<string>, filled: Frame)
    requires WellFormed(raw) && |raw.rows| == 1 && filled == FillFrom(raw, expected)
    requires "titel" in expected && "isbn" in expected && "auteur_voornaam" in expected && "edition" in expected
    requires Get(raw.rows[0], "titel") == Str("T") && Get(raw.rows[0], "isbn") == Str("9")
    requires Get(raw.rows[0], "auteur_voornaam") == Str("") && Get(raw.rows[0], "edition") == Str("")
    ensures WellFormed(filled) && |filled.rows| == 1
    ensures Get(filled.rows[0], "titel") == Str("T") && Get(filled.rows[0], "isbn") == Str("9")
    ensures Get(filled.rows[0], "auteur_voornaam") == Str("") && Get(filled.rows[0], "edition") == Str("")
    ensures "titel" in filled.rows[0] && "isbn" in filled.rows[0]
    ensures "auteur_voornaam" in filled.rows[0] && "edition" in filled.rows[0]
  {
    FilledCells(raw, expected, filled);
    FilledKeys(raw, expected, filled);
  }

  lemma FilledCells(raw: Frame, expected: seq<string>, filled: Frame)
    requires WellFormed(raw) && |raw.rows| == 1 && filled == FillFrom(raw, expected)
    ensures |filled.rows| == 1 && forall c :: Get(filled.rows[0], c) == Get(raw.rows[0], c)
  {
    FillKeepsReadings(raw, expected);
  }

  lemma FilledKeys(raw: Frame, expected: seq<string>, filled: Frame)
    requires WellFormed(raw) && |raw.rows| == 1 && filled == FillFrom(raw, expected)
    requires "titel" in expected && "isbn" in expected && "auteur_voornaam" in expected && "edition" in expected
    ensures "titel" in filled.rows[0] && "isbn" in filled.rows[0]
    ensures "auteur_voornaam" in filled.rows[0] && "edition" in filled.rows[0]
  {
    FillAddsExpected(raw, expected);
    RowHasColumn(filled, "titel");
    RowHasColumn(filled, "isbn");
    RowHasColumn(filled, "auteur_voornaam");
    RowHasColumn(filled, "edition");
  }

  lemma RowHasColumn(f: Frame, c: string)
    requires WellFormed(f) && |f.rows| == 1 && c in f.columns
    ensures c in f.rows[0]
  {
    assert f.rows[0].Keys == ColumnSet(f.columns);
  }

  lemma FourColumnsExpected()
    ensures "titel" in ExpectedColumns && "isbn" in ExpectedColumns
    ensures "auteur_voornaam" in ExpectedColumns && "edition" in ExpectedColumns
  {
  }

  /** Deduplication, coercion and the stamp keep the one row of a one-row frame and its text cells. */
  lemma FinishOfOneRow(filled: Frame, now: string) returns (r: Row)
    requires WellFormed(filled) && |filled.rows| == 1
    ensures Finish(filled, now).rows == [r]
    ensures forall c :: c in filled.rows[0] && c !in NumericColumns ==> c in r && r[c] == filled.rows[0][c]
  {
    var row := filled.rows[0];
    assert filled.rows == [row];
    DedupOfUniqueRows([row]);
    var deduped := Frame(filled.columns, [row]);
    DedupKeepsShape(filled);
    var coerced := CoerceFrame(deduped);
    assert coerced.rows == [CoerceRow(row)];
    r := Stamp(coerced, now).rows[0];
  }

  lemma TextCellsSurvive(row: Row, r: Row)
    requires forall c :: c in row && c !in NumericColumns ==> c in r && r[c] == row[c]
    requires "titel" in row && "isbn" in row && "auteur_voornaam" in row && "edition" in row
    ensures Get(r, "titel") == Get(row, "titel") && Get(r, "isbn") == Get(row, "isbn")
    ensures Get(r, "auteur_voornaam") == Get(row, "auteur_voornaam") && Get(r, "edition") == Get(row, "edition")
  {
    KeyColumnsAreNotNumeric();
    assert "auteur_voornaam" !in NumericColumns && "edition" !in NumericColumns;
  }

  /** A store holding one book without title or ISBN. */
  function OneUntitledBook(): Table {
    Table([Book(1, RecordOf(map[]))], 2)
  }

  /**
   * Merging the prepared `Titel;ISBN` upload stores the ISBN under
   * `auteur_voornaam` and the empty `edition` cell as the ISBN, so the stored
   * key is (T, ""); merging the same upload again finds no stored (T, 9) and
   * inserts the book a second time.
   */
  lemma PositionalMergeScramblesAndRepeats(now: string)
    ensures var f := UploadFrame(now);
            var once := LiveMergeAsWritten(OneUntitledBook(), f.columns, f.rows);
            && once.Ok?
            && |once.value.books| == 2
            && Get(once.value.books[1].record, "isbn") == Str("")
            && Get(once.value.books[1].record, "auteur_voornaam") == Str("9")
            && var twice := LiveMergeAsWritten(once.value, f.columns, f.rows);
               twice.Ok? && |twice.value.books| == 3
  {
    UploadFrameColumns(now);
    var row := UploadFrameRow(now);
    ScramblesAndRepeats(row);
  }

  lemma ScramblesAndRepeats(row: Row)
    requires Get(row, "titel") == Str("T") && Get(row, "isbn") == Str("9") && Get(row, "edition") == Str("")
    ensures var once := LiveMergeAsWritten(OneUntitledBook(), TitleIsbnColumns, [row]);
            && once.Ok?
            && |once.value.books| == 2
            && Get(once.value.books[1].record, "isbn") == Str("")
            && Get(once.value.books[1].record, "auteur_voornaam") == Str("9")
            && var twice := LiveMergeAsWritten(once.value, TitleIsbnColumns, [row]);
               twice.Ok? && |twice.value.books| == 3
  {
    var t := OneUntitledBook();
    var record := ScrambledRecord(row);
    var u := Insert(t, record);
    UntitledKey();
    MergeOneRow(t, row, record);
    KeysAfterInsert(t, record);
    MergeOneRow(u, row, record);
  }

  lemma KeysAfterInsert(t: Table, record: Row)
    ensures StoredKeys(Insert(t, record).books) == StoredKeys(t.books) + {KeyOf(record)}
  {
    var b := Book(t.nextId, record);
    assert forall x :: x in t.books + [b] <==> x in t.books || x == b;
  }

  /** Merging a one-row upload into a store without its key inserts the positional record. */
  lemma MergeOneRow(t: Table, row: Row, record: Row)
    requires PositionalRecord(TitleIsbnColumns, row) == Ok(record)
    requires KeyOf(row) !in StoredKeys(t.books)
    ensures LiveMergeAsWritten(t, TitleIsbnColumns, [row]) == Ok(Insert(t, record))
  {
    assert [row][..0] == [];
  }

  lemma UntitledKey()
    ensures StoredKeys(OneUntitledBook().books) == {(Str(""), Str(""))}
  {
    RecordKeepsKey(map[]);
  }

  /** The record `tuple(row)` stores for the upload's row. */
  lemma ScrambledRecord(row: Row) returns (r: Row)
    requires Get(row, "titel") == Str("T") && Get(row, "isbn") == Str("9") && Get(row, "edition") == Str("")
    ensures PositionalRecord(TitleIsbnColumns, row) == Ok(r)
    ensures Get(r, "isbn") == Str("") && Get(r, "auteur_voornaam") == Str("9")
    ensures KeyOf(r) == (Str("T"), Str(""))
  {
    r := PositionalRecord(TitleIsbnColumns, row).value;
    TitlePosition();
    FirstNamePosition();
    IsbnPosition();
    TitleIsbnPositions();
    PositionalCell(TitleIsbnColumns, row, "titel");
    PositionalCell(TitleIsbnColumns, row, "auteur_voornaam");
    PositionalCell(TitleIsbnColumns, row, "isbn");
  }

  lemma PositionalCell(columns: seq<string>, row: Row, c: string)
    requires |columns| == |SchemaColumns| && c in SchemaColumns
    ensures Get(PositionalRecord(columns, row).value, c) == Get(row, columns[Position(SchemaColumns, c)])
  {
  }

  lemma TitlePosition()
    ensures "titel" in SchemaColumns && Position(SchemaColumns, "titel") == 0
  {
  }

  lemma FirstNamePosition()
    ensures "auteur_voornaam" in SchemaColumns && Position(SchemaColumns, "auteur_voornaam") == 1
  {
  }

  lemma IsbnPosition()
    ensures "isbn" in SchemaColumns && Position(SchemaColumns, "isbn") == 8
  {
  }

  lemma TitleIsbnPositions()
    ensures |TitleIsbnColumns| == |SchemaColumns|
    ensures TitleIsbnColumns[0] == "titel" && TitleIsbnColumns[1] == "isbn" && TitleIsbnColumns[8] == "edition"
  {
  }

  /**
   * As written, the two writers differ on the same upload: the library
   * writer stores the ISBN of the `Titel;ISBN` upload as empty, the upload
   * writer stores it under `isbn`. They agree for frames in table order
   * (`WritersAgreeInSchemaOrder`).
   */
  lemma WritersDisagreeOnUpload(now: string)
    ensures var library := WrittenAsWritten(OneUntitledBook(), UploadFrame(now), false).0;
            var upload := SnapshotWritten(OneUntitledBook(), UploadFrame(now), false).0;
            && |library.books| == 2 && |upload.books| == 2
            && Get(library.books[1].record, "isbn") == Str("")
            && Get(upload.books[1].record, "isbn") == Str("9")
            && library != upload
  {
    var f := UploadFrame(now);
    PositionalMergeScramblesAndRepeats(now);
    ByNameMergeStoresAndSettles(now);
    UploadFrameColumns(now);
    UploadColumnsAreKnown();
    var r := UploadFrameRow(now);
    WritersAgree(OneUntitledBook(), f, false);
  }

  lemma UploadColumnsAreKnown()
    ensures Unknown(TitleIsbnColumns) == []
  {
    if Unknown(TitleIsbnColumns) != [] {
      var c := Unknown(TitleIsbnColumns)[0];
      UnknownColumnsAreUnknown(TitleIsbnColumns, c);
    }
  }

  /** The corrected loop stores the upload's row under its own columns and ignores a second merge of it. */
  lemma ByNameMergeStoresAndSettles(now: string)
    ensures var f := UploadFrame(now);
            var once := LiveMerge(OneUntitledBook(), f.rows);
            && |once.books| == 2
            && Get(once.books[1].record, "isbn") == Str("9")
            && Get(once.books[1].record, "auteur_voornaam") == Str("")
            && LiveMerge(once, f.rows) == once
  {
    var row := UploadFrameRow(now);
    StoresAndSettles(row);
  }

  lemma StoresAndSettles(row: Row)
    requires Get(row, "titel") == Str("T") && Get(row, "isbn") == Str("9") && Get(row, "auteur_voornaam") == Str("")
    ensures var once := LiveMerge(OneUntitledBook(), [row]);
            && |once.books| == 2
            && Get(once.books[1].record, "isbn") == Str("9")
            && Get(once.books[1].record, "auteur_voornaam") == Str("")
            && LiveMerge(once, [row]) == once
  {
    var t := OneUntitledBook();
    UntitledKey();
    assert [row][..0] == [];
    assert LiveMerge(t, [row]) == Insert(t, RecordOf(row));
    ByNameCells(row);
    LiveMergeIsIdempotent(t, [row]);
  }

  lemma ByNameCells(row: Row)
    ensures Get(RecordOf(row), "isbn") == Get(row, "isbn")
    ensures Get(RecordOf(row), "auteur_voornaam") == Get(row, "auteur_voornaam")
  {
    FirstNamePosition();
    IsbnPosition();
  }
}
