/**
 * The CSV import pipeline of `load_csv_to_db`: encoding fallback, header
 * clean-up and mapping, the required-column check, filling in the missing
 * columns, deduplication on (title, ISBN), numeric coercion and the
 * `added_date` stamp. The writer that stores the batch is in BookStore.
 */
module CsvImport {
  import opened Wrappers
  import opened Text
  import opened Numbers
  import opened Frames

  // ---------------------------------------------------------------------------
  // Encoding fallback

  datatype Encoding = Utf8Sig | Latin1 | Windows1252

  /** The candidates, in the order they are tried. */
  const Encodings: seq<Encoding> := [Utf8Sig, Latin1, Windows1252]

  /** What the CSV reader yields: the header line and the records, as text. */
  datatype RawTable = RawTable(header: seq<string>, records: seq<seq<string>>)

  /** Why an import is refused; each stands for one error message of the source. */
  datatype ImportError =
    | NotAnUpload
    | NoEncoding
    | ReadFailed(reason: string)
    | MissingRequired(columns: seq<string>)
    | DuplicateColumns(columns: seq<string>)
    | UnknownColumns(columns: seq<string>)
    | BindingCount(supplied: nat)

  /** `bytes.decode(encoding)`: `None` stands for a `UnicodeDecodeError`. */
  type Decoder = (seq<bv8>, Encoding) -> Option<string>

  /** `pd.read_csv` on decoded text, with its delimiter sniffing; `Err` is any error it raises. */
  type Reader = string -> Result<RawTable, string>

  /** The index of the first candidate, from `from` on, under which the bytes decode (`|Encodings|` if none). */
  function FirstDecoding(bytes: seq<bv8>, decode: Decoder, from: nat): (k: nat)
    requires from <= |Encodings|
    ensures from <= k <= |Encodings|
    ensures k < |Encodings| ==> decode(bytes, Encodings[k]).Some?
    ensures forall j :: from <= j < k ==> decode(bytes, Encodings[j]).None?
    decreases |Encodings| - from
  {
    if from == |Encodings| then from
    else if decode(bytes, Encodings[from]).Some? then from
    else FirstDecoding(bytes, decode, from + 1)
  }

  /** The table read with the first encoding that decodes; a reader error aborts the import. */
  function ReadOutcome(bytes: seq<bv8>, decode: Decoder, read: Reader): Result<RawTable, ImportError> {
    var k := FirstDecoding(bytes, decode, 0);
    if k == |Encodings| then Err(NoEncoding)
    else
      match read(decode(bytes, Encodings[k]).value)
      case Ok(t) => Ok(t)
      case Err(m) => Err(ReadFailed(m))
  }

  /** The encoding loop: try each candidate in turn and keep the first that decodes. */
  method ReadUpload(bytes: seq<bv8>, decode: Decoder, read: Reader) returns (r: Result<RawTable, ImportError>)
    ensures r == ReadOutcome(bytes, decode, read)
    ensures r == Err(NoEncoding) <==> forall k :: 0 <= k < |Encodings| ==> decode(bytes, Encodings[k]).None?
  {
    var i := 0;
    while i < |Encodings|
      invariant 0 <= i <= |Encodings|
      invariant forall j :: 0 <= j < i ==> decode(bytes, Encodings[j]).None?
      invariant FirstDecoding(bytes, decode, 0) == FirstDecoding(bytes, decode, i)
    {
      var text := decode(bytes, Encodings[i]);
      if text.Some? {
        var parsed := read(text.value);
        match parsed {
          case Ok(t) => return Ok(t);
          case Err(m) => return Err(ReadFailed(m));
        }
      }
      i := i + 1;
    }
    return Err(NoEncoding);
  }

  // ---------------------------------------------------------------------------
  // Header clean-up and mapping

  const BOM: char := '\U{FEFF}'

  /** The columns of the `books` table, in its column order. */
  const ExpectedColumns: seq<string> := [
    "titel", "auteur_voornaam", "auteur_achternaam", "genre", "prijs", "paginas",
    "bindwijze", "edition", "isbn", "reeks_nr", "uitgeverij", "serie", "staat",
    "taal", "gesigneerd", "gelezen"]

  const AddedDate: string := "added_date"

  const SchemaColumns: seq<string> := ExpectedColumns + [AddedDate]

  /** The Dutch header synonyms and the canonical column each stands for. */
  const ColumnMapping: map<string, string> := map[
    "Titel" := "titel", "titel" := "titel",
    "Auteur voornaam" := "auteur_voornaam", "Auteur_voornaam" := "auteur_voornaam",
    "auteur voornaam" := "auteur_voornaam",
    "Auteur achternaam" := "auteur_achternaam", "Auteur_achternaam" := "auteur_achternaam",
    "auteur achternaam" := "auteur_achternaam",
    "Genre" := "genre", "genre" := "genre",
    "Prijs" := "prijs", "prijs" := "prijs",
    "Pagina's" := "paginas", "pagina's" := "paginas", "paginas" := "paginas",
    "Bindwijze" := "bindwijze", "bindwijze" := "bindwijze",
    "Edition" := "edition", "edition" := "edition",
    "ISBN" := "isbn", "isbn" := "isbn",
    "Reeks nr" := "reeks_nr", "Reeks_nr" := "reeks_nr", "reeks nr" := "reeks_nr", "reeks_nr" := "reeks_nr",
    "Uitgeverij" := "uitgeverij", "uitgeverij" := "uitgeverij",
    "Serie" := "serie", "serie" := "serie",
    "Staat" := "staat", "staat" := "staat",
    "Taal" := "taal", "taal" := "taal",
    "Gesigneerd" := "gesigneerd", "gesigneerd" := "gesigneerd",
    "Gelezen" := "gelezen", "gelezen" := "gelezen"]

  /** Every synonym stands for one of the expected columns. */
  lemma MappingTargetsExpected()
    ensures forall h :: h in ColumnMapping ==> ColumnMapping[h] in ExpectedColumns
  {
  }

  /** The header with every BOM character removed and white space stripped from both ends. */
  function CleanHeader(h: string): (r: string)
    ensures BOM !in r
    ensures r == [] || (!IsSpace(r[0]) && !IsSpace(r[|r| - 1]))
  {
    StripRules(Without(h, BOM));
    Strip(Without(h, BOM))
  }

  /** A synonym maps to its canonical column; any other header is lower-cased. */
  function MapHeader(h: string): (r: string)
    ensures Strip(h) in ColumnMapping ==> r in ExpectedColumns
    ensures Strip(h) !in ColumnMapping ==> |r| == |h| && NoUpper(r)
  {
    MappingTargetsExpected();
    var key := Strip(h);
    if key in ColumnMapping then ColumnMapping[key] else Lower(h)
  }

  function MapHeaders(header: seq<string>): (columns: seq<string>)
    ensures |columns| == |header|
    ensures forall i :: 0 <= i < |header| ==> columns[i] == MapHeader(CleanHeader(header[i]))
  {
    seq(|header|, i requires 0 <= i < |header| => MapHeader(CleanHeader(header[i])))
  }

  /** Canonical names are spelled with lower-case ASCII letters and underscores only. */
  predicate SnakeCase(c: string) {
    c != [] && forall i :: 0 <= i < |c| ==> ('a' <= c[i] <= 'z' || c[i] == '_')
  }

  lemma {:induction false} SchemaNamesAreSnakeCase()
    ensures forall c :: c in SchemaColumns ==> SnakeCase(c)
  {
    AuthorNamesAreSnakeCase();
    DescriptionNamesAreSnakeCase();
    EditionNamesAreSnakeCase();
    SeriesNamesAreSnakeCase();
    StatusNamesAreSnakeCase();
  }

  lemma AuthorNamesAreSnakeCase()
    ensures SnakeCase("titel") && SnakeCase("auteur_voornaam") && SnakeCase("auteur_achternaam")
  {
  }

  lemma DescriptionNamesAreSnakeCase()
    ensures SnakeCase("genre") && SnakeCase("prijs") && SnakeCase("paginas")
  {
  }

  lemma EditionNamesAreSnakeCase()
    ensures SnakeCase("bindwijze") && SnakeCase("edition") && SnakeCase("isbn")
  {
  }

  lemma SeriesNamesAreSnakeCase()
    ensures SnakeCase("reeks_nr") && SnakeCase("uitgeverij") && SnakeCase("serie")
  {
  }

  lemma StatusNamesAreSnakeCase()
    ensures SnakeCase("staat") && SnakeCase("taal") && SnakeCase("gesigneerd")
    ensures SnakeCase("gelezen") && SnakeCase("added_date")
  {
  }

  /** Where a canonical name is itself a synonym, it is a synonym of itself. */
  lemma {:induction false} SchemaNamesMapToThemselves()
    ensures forall c :: c in SchemaColumns && c in ColumnMapping ==> ColumnMapping[c] == c
  {
    AuthorColumnsMapToThemselves();
    DescriptionColumnsMapToThemselves();
    EditionColumnsMapToThemselves();
    SeriesColumnsMapToThemselves();
    StatusColumnsMapToThemselves();
    ReadingColumnsMapToThemselves();
    forall c | c in SchemaColumns && c in ColumnMapping ensures ColumnMapping[c] == c {
      var i :| 0 <= i < |SchemaColumns| && SchemaColumns[i] == c;
      assert MapsToItself(SchemaColumns[i]);
    }
  }

  /** A name that the mapping lists stands for itself. */
  predicate MapsToItself(c: string) {
    c in ColumnMapping ==> ColumnMapping[c] == c
  }

  /** The table columns by position. */
  lemma SchemaColumnsListed()
    ensures |SchemaColumns| == 17
    ensures SchemaColumns[0] == "titel"
    ensures SchemaColumns[1] == "auteur_voornaam"
    ensures SchemaColumns[2] == "auteur_achternaam"
    ensures SchemaColumns[3] == "genre"
    ensures SchemaColumns[4] == "prijs"
    ensures SchemaColumns[5] == "paginas"
    ensures SchemaColumns[6] == "bindwijze"
    ensures SchemaColumns[7] == "edition"
    ensures SchemaColumns[8] == "isbn"
    ensures SchemaColumns[9] == "reeks_nr"
    ensures SchemaColumns[10] == "uitgeverij"
    ensures SchemaColumns[11] == "serie"
    ensures SchemaColumns[12] == "staat"
    ensures SchemaColumns[13] == "taal"
    ensures SchemaColumns[14] == "gesigneerd"
    ensures SchemaColumns[15] == "gelezen"
    ensures SchemaColumns[16] == "added_date"
  {
  }

  lemma AuthorColumnsMapToThemselves()
    ensures forall i :: 0 <= i < 3 ==> MapsToItself(SchemaColumns[i])
  {
    SchemaColumnsListed();
    AuthorNamesMapToThemselves();
  }

  lemma AuthorNamesMapToThemselves()
    ensures MapsToItself("titel") && MapsToItself("auteur_voornaam") && MapsToItself("auteur_achternaam")
  {
  }

  lemma DescriptionColumnsMapToThemselves()
    ensures forall i :: 3 <= i < 6 ==> MapsToItself(SchemaColumns[i])
  {
    SchemaColumnsListed();
    DescriptionNamesMapToThemselves();
  }

  lemma DescriptionNamesMapToThemselves()
    ensures MapsToItself("genre") && MapsToItself("prijs") && MapsToItself("paginas")
  {
  }

  lemma EditionColumnsMapToThemselves()
    ensures forall i :: 6 <= i < 9 ==> MapsToItself(SchemaColumns[i])
  {
    SchemaColumnsListed();
    EditionNamesMapToThemselves();
  }

  lemma EditionNamesMapToThemselves()
    ensures MapsToItself("bindwijze") && MapsToItself("edition") && MapsToItself("isbn")
  {
  }

  lemma SeriesColumnsMapToThemselves()
    ensures forall i :: 9 <= i < 12 ==> MapsToItself(SchemaColumns[i])
  {
    SchemaColumnsListed();
    SeriesNamesMapToThemselves();
  }

  lemma SeriesNamesMapToThemselves()
    ensures MapsToItself("reeks_nr") && MapsToItself("uitgeverij") && MapsToItself("serie")
  {
  }

  lemma StatusColumnsMapToThemselves()
    ensures forall i :: 12 <= i < 15 ==> MapsToItself(SchemaColumns[i])
  {
    SchemaColumnsListed();
    StatusNamesMapToThemselves();
  }

  lemma StatusNamesMapToThemselves()
    ensures MapsToItself("staat") && MapsToItself("taal") && MapsToItself("gesigneerd")
  {
  }

  lemma ReadingColumnsMapToThemselves()
    ensures forall i :: 15 <= i < 17 ==> MapsToItself(SchemaColumns[i])
  {
    SchemaColumnsListed();
    ReadingNamesMapToThemselves();
  }

  lemma ReadingNamesMapToThemselves()
    ensures MapsToItself("gelezen") && MapsToItself("added_date")
  {
  }

  /** A canonical column name survives clean-up and mapping unchanged. */
  lemma {:induction false} CanonicalNameIsFixed(c: string)
    requires c in SchemaColumns
    ensures MapHeader(CleanHeader(c)) == c
  {
    SchemaNamesAreSnakeCase();
    SchemaNamesMapToThemselves();
    assert SnakeCase(c);
    assert BOM !in c && NoUpper(c);
    StripTrimmed(c);
  }

  /**
   * Lookup happens before lower-casing and is case-sensitive: a clean header
   * that is not literally a synonym is only lower-cased.
   */
  lemma {:induction false} UnlistedHeaderIsLowered(h: string)
    requires BOM !in h && (h == [] || (!IsSpace(h[0]) && !IsSpace(h[|h| - 1])))
    requires h !in ColumnMapping
    ensures MapHeader(CleanHeader(h)) == Lower(h)
  {
    StripTrimmed(h);
  }

  /**
   * "Reeks Nr" is a synonym only up to case: it ends up as the column
   * "reeks nr", which is not a column of the table.
   */
  lemma {:induction false} MixedCaseSynonymIsNotMapped()
    ensures "Reeks Nr" !in ColumnMapping && "reeks nr" in ColumnMapping
    ensures Lower("Reeks Nr") == "reeks nr"
    ensures "reeks nr" !in SchemaColumns
  {
    ReeksNrIsNoSynonym();
    LowerReeksNr();
    SchemaNamesAreSnakeCase();
    assert !SnakeCase("reeks nr") by { assert "reeks nr"[5] == ' '; }
  }

  lemma ReeksNrIsNoSynonym()
    ensures "Reeks Nr" !in ColumnMapping && "reeks nr" in ColumnMapping
  {
  }

  lemma {:induction false} LowerReeksNr()
    ensures Lower("Reeks Nr") == "reeks nr"
  {
    assert LowerChar('R') == 'r' && LowerChar('N') == 'n';
  }

  // ---------------------------------------------------------------------------
  // From the parsed CSV to a frame

  /** The position of a column name that occurs in `columns`: its first occurrence. */
  function Position(columns: seq<string>, c: string): (k: nat)
    requires c in columns
    ensures k < |columns| && columns[k] == c
    ensures forall j :: 0 <= j < k ==> columns[j] != c
  {
    if columns[0] == c then 0 else 1 + Position(columns[1..], c)
  }

  /** Field `j` of a record; a short record reads as empty text there (pandas' missing value). */
  function Field(record: seq<string>, j: nat): string {
    if j < |record| then record[j] else ""
  }

  /** One CSV record under the (mapped) header names. */
  function RowOf(columns: seq<string>, record: seq<string>): (row: Row)
    ensures row.Keys == ColumnSet(columns)
  {
    map c | c in columns :: Str(Field(record, Position(columns, c)))
  }

  /** The frame `read_csv` yields once the header has been renamed to `columns`. */
  function ToFrame(columns: seq<string>, records: seq<seq<string>>): (f: Frame)
    requires Distinct(columns)
    ensures WellFormed(f) && f.columns == columns && |f.rows| == |records|
    ensures forall i, j :: 0 <= i < |records| && 0 <= j < |columns| ==>
              f.rows[i][columns[j]] == Str(Field(records[i], j))
  {
    var f := Frame(columns, seq(|records|, i requires 0 <= i < |records| => RowOf(columns, records[i])));
    forall i, j | 0 <= i < |records| && 0 <= j < |columns|
      ensures f.rows[i][columns[j]] == Str(Field(records[i], j))
    {
      assert Position(columns, columns[j]) == j;
    }
    f
  }

  // ---------------------------------------------------------------------------
  // Filling in the missing expected columns

  /**
   * The frame after the fill loop over `expected`: each name not yet among the
   * columns is added as a new last column holding the empty text in every row.
   */
  function FillFrom(f: Frame, expected: seq<string>): (g: Frame)
    requires WellFormed(f)
    ensures WellFormed(g) && |g.rows| == |f.rows|
    ensures |f.columns| <= |g.columns| && g.columns[..|f.columns|] == f.columns
    decreases |expected|
  {
    if expected == [] then f
    else
      var next := if expected[0] in f.columns then f else AddColumn(f, expected[0], Str(""));
      FillFrom(next, expected[1..])
  }

  /** After the fill, every expected name is a column, and every added column is an expected name that was missing. */
  lemma {:induction false} FillAddsExpected(f: Frame, expected: seq<string>)
    requires WellFormed(f)
    ensures forall c :: c in expected ==> c in FillFrom(f, expected).columns
    ensures forall c :: c in FillFrom(f, expected).columns && c !in f.columns ==> c in expected
    decreases |expected|
  {
    if expected != [] {
      var next := if expected[0] in f.columns then f else AddColumn(f, expected[0], Str(""));
      FillAddsExpected(next, expected[1..]);
      var g := FillFrom(f, expected);
      assert g == FillFrom(next, expected[1..]);
      var k := Position(next.columns, expected[0]);
      assert g.columns[..|next.columns|][k] == expected[0];
      forall c | c in f.columns ensures c in g.columns {
        var m := Position(f.columns, c);
        assert g.columns[..|f.columns|][m] == c;
      }
    }
  }

  /** Filling changes no cell as it reads: an added cell reads `''`, exactly as the absent one did. */
  lemma {:induction false} FillKeepsReadings(f: Frame, expected: seq<string>)
    requires WellFormed(f)
    ensures forall i, c :: 0 <= i < |f.rows| ==> Get(FillFrom(f, expected).rows[i], c) == Get(f.rows[i], c)
    decreases |expected|
  {
    if expected != [] {
      var next := if expected[0] in f.columns then f else AddColumn(f, expected[0], Str(""));
      FillKeepsReadings(next, expected[1..]);
      forall i, c | 0 <= i < |f.rows| ensures Get(next.rows[i], c) == Get(f.rows[i], c) {
        assert f.rows[i].Keys == ColumnSet(f.columns);
      }
    }
  }

  /** The fill loop over `expected`: every name that is missing is added, filled with `''`. */
  method FillMissing(f: Frame, expected: seq<string>) returns (g: Frame)
    requires WellFormed(f)
    ensures g == FillFrom(f, expected) && WellFormed(g) && |g.rows| == |f.rows|
    ensures g.columns[..|f.columns|] == f.columns
    ensures forall c :: c in expected ==> c in g.columns
    ensures forall c :: c in g.columns && c !in f.columns ==> c in expected
    ensures forall i, c :: 0 <= i < |f.rows| ==> Get(g.rows[i], c) == Get(f.rows[i], c)
  {
    g := f;
    for k := 0 to |expected|
      invariant WellFormed(g)
      invariant FillFrom(g, expected[k..]) == FillFrom(f, expected)
    {
      assert expected[k..][1..] == expected[k + 1..];
      var col := expected[k];
      if col !in g.columns {
        g := AddColumn(g, col, Str(""));
      }
    }
    assert expected[|expected|..] == [];
    FillAddsExpected(f, expected);
    FillKeepsReadings(f, expected);
  }

  // ---------------------------------------------------------------------------
  // Deduplication on (titel, isbn)

  /** `drop_duplicates(subset=["titel", "isbn"], keep="first")` on the rows. */
  function Dedup(rows: seq<Row>): (d: seq<Row>)
    ensures UniqueKeys(d)
    ensures KeySet(d) == KeySet(rows)
    ensures forall r :: r in d ==> r in rows
    ensures |d| <= |rows|
  {
    if rows == [] then []
    else
      var prefix := rows[..|rows| - 1];
      var last := rows[|rows| - 1];
      assert rows == prefix + [last];
      KeySetAppend(prefix, last);
      var p := Dedup(prefix);
      if KeyOf(last) in KeySet(p) then p
      else
        assert forall i :: 0 <= i < |p| ==> KeyOf(p[i]) in KeySet(p);
        KeySetAppend(p, last);
        p + [last]
  }

  /** The position of the first row carrying key `k`. */
  function FirstIndex(rows: seq<Row>, k: Key): (i: nat)
    requires k in KeySet(rows)
    ensures i < |rows| && KeyOf(rows[i]) == k
    ensures forall j :: 0 <= j < i ==> KeyOf(rows[j]) != k
  {
    var prefix := rows[..|rows| - 1];
    assert rows == prefix + [rows[|rows| - 1]];
    if k in KeySet(prefix) then FirstIndex(prefix, k)
    else
      assert forall j :: 0 <= j < |prefix| ==> KeyOf(prefix[j]) in KeySet(prefix);
      |rows| - 1
  }

  /** The row kept for each key is the first row that carries it. */
  lemma {:induction false} DedupKeepsFirst(rows: seq<Row>)
    ensures forall m :: 0 <= m < |Dedup(rows)| ==>
              KeyOf(Dedup(rows)[m]) in KeySet(rows) && Dedup(rows)[m] == rows[FirstIndex(rows, KeyOf(Dedup(rows)[m]))]
  {
    if rows != [] {
      var prefix := rows[..|rows| - 1];
      DedupKeepsFirst(prefix);
      DedupStep(rows);
      var p := Dedup(prefix);
      var d := Dedup(rows);
      forall m | 0 <= m < |d|
        ensures KeyOf(d[m]) in KeySet(rows) && d[m] == rows[FirstIndex(rows, KeyOf(d[m]))]
      {
        if m < |p| {
          KeptKeyInPrefix(rows, m);
          FirstIndexInPrefix(rows, KeyOf(p[m]));
          assert rows[FirstIndex(prefix, KeyOf(p[m]))] == prefix[FirstIndex(prefix, KeyOf(p[m]))];
        } else {
          FirstIndexOfNewLast(rows);
        }
      }
    }
  }

  /** The kept rows keep their relative order: their first positions increase. */
  lemma {:induction false} DedupKeepsOrder(rows: seq<Row>)
    ensures forall a, b :: 0 <= a < b < |Dedup(rows)| ==>
              KeyOf(Dedup(rows)[a]) in KeySet(rows) && KeyOf(Dedup(rows)[b]) in KeySet(rows) &&
              FirstIndex(rows, KeyOf(Dedup(rows)[a])) < FirstIndex(rows, KeyOf(Dedup(rows)[b]))
  {
    if rows != [] {
      var prefix := rows[..|rows| - 1];
      DedupKeepsOrder(prefix);
      DedupStep(rows);
      var p := Dedup(prefix);
      var d := Dedup(rows);
      forall a, b | 0 <= a < b < |d|
        ensures KeyOf(d[a]) in KeySet(rows) && KeyOf(d[b]) in KeySet(rows) &&
                FirstIndex(rows, KeyOf(d[a])) < FirstIndex(rows, KeyOf(d[b]))
      {
        KeptKeyInPrefix(rows, a);
        FirstIndexInPrefix(rows, KeyOf(p[a]));
        if b < |p| {
          KeptKeyInPrefix(rows, b);
          FirstIndexInPrefix(rows, KeyOf(p[b]));
        } else {
          FirstIndexOfNewLast(rows);
        }
      }
    } else {
      assert Dedup(rows) == [];
    }
  }

  /** Deduplicating one more row keeps it exactly when its key is new. */
  lemma DedupStep(rows: seq<Row>)
    requires rows != []
    ensures KeySet(Dedup(rows[..|rows| - 1])) == KeySet(rows[..|rows| - 1])
    ensures KeyOf(rows[|rows| - 1]) in KeySet(rows[..|rows| - 1]) ==> Dedup(rows) == Dedup(rows[..|rows| - 1])
    ensures KeyOf(rows[|rows| - 1]) !in KeySet(rows[..|rows| - 1]) ==>
              Dedup(rows) == Dedup(rows[..|rows| - 1]) + [rows[|rows| - 1]]
  {
  }

  /** A row kept from the prefix carries a key of the prefix. */
  lemma KeptKeyInPrefix(rows: seq<Row>, m: nat)
    requires rows != [] && m < |Dedup(rows[..|rows| - 1])|
    ensures KeyOf(Dedup(rows[..|rows| - 1])[m]) in KeySet(rows[..|rows| - 1])
    ensures Dedup(rows)[m] == Dedup(rows[..|rows| - 1])[m]
  {
    var p := Dedup(rows[..|rows| - 1]);
    assert p[m] in p;
    DedupStep(rows);
  }

  /** A key already in the prefix has its first position there. */
  lemma FirstIndexInPrefix(rows: seq<Row>, k: Key)
    requires rows != [] && k in KeySet(rows[..|rows| - 1])
    ensures k in KeySet(rows)
    ensures FirstIndex(rows, k) == FirstIndex(rows[..|rows| - 1], k) < |rows| - 1
  {
    assert rows == rows[..|rows| - 1] + [rows[|rows| - 1]];
    KeySetAppend(rows[..|rows| - 1], rows[|rows| - 1]);
  }

  /** A last row with a new key is its own first position. */
  lemma FirstIndexOfNewLast(rows: seq<Row>)
    requires rows != [] && KeyOf(rows[|rows| - 1]) !in KeySet(rows[..|rows| - 1])
    ensures KeyOf(rows[|rows| - 1]) in KeySet(rows)
    ensures FirstIndex(rows, KeyOf(rows[|rows| - 1])) == |rows| - 1
  {
    assert rows[|rows| - 1] in rows;
  }

  /** Rows whose keys are already unique come through deduplication unchanged. */
  lemma {:induction false} DedupOfUniqueRows(rows: seq<Row>)
    requires UniqueKeys(rows)
    ensures Dedup(rows) == rows
  {
    if rows != [] {
      var prefix := rows[..|rows| - 1];
      var last := rows[|rows| - 1];
      assert rows == prefix + [last];
      DedupOfUniqueRows(prefix);
      assert KeyOf(last) !in KeySet(prefix);
    }
  }

  // ---------------------------------------------------------------------------
  // Numeric coercion and the added_date stamp

  const Euro: char := '\U{20AC}'

  /** The columns `to_numeric(errors='coerce').fillna(0)` is applied to. */
  const NumericColumns: seq<string> := ["prijs", "paginas", "reeks_nr"]

  /** The price clean-up: every euro sign is removed and every decimal comma becomes a point. */
  function CleanPrice(s: string): (r: string)
    ensures Euro !in r && ',' !in r && |r| <= |s|
  {
    if s == [] then []
    else (if s[0] == Euro then [] else if s[0] == ',' then ['.'] else [s[0]]) + CleanPrice(s[1..])
  }

  lemma {:induction false} CleanPriceAppend(a: string, b: string)
    ensures CleanPrice(a + b) == CleanPrice(a) + CleanPrice(b)
  {
    if a == [] {
      assert a + b == b;
    } else {
      assert (a + b)[0] == a[0] && (a + b)[1..] == a[1..] + b;
      CleanPriceAppend(a[1..], b);
    }
  }

  /** Text without a euro sign or a comma is left alone. */
  lemma {:induction false} CleanPriceKeeps(s: string)
    requires Euro !in s && ',' !in s
    ensures CleanPrice(s) == s
  {
    if s != [] {
      CleanPriceKeeps(s[1..]);
    }
  }

  /** A value that parses as a decimal number is that number; anything else is 0. */
  function ToNumber(s: string): real {
    match ParseDecimal(s)
    case Some(v) => v
    case None => 0.0
  }

  /** The coercion of one cell of a numeric column; a cell that is already a number stays as it is. */
  function Coerced(column: string, c: Cell): (d: Cell)
    ensures d.Num?
    ensures c.Num? ==> d == c
  {
    match c
    case Num(_) => c
    case Str(s) => Num(ToNumber(if column == "prijs" then CleanPrice(s) else s))
  }

  /** The three numeric columns of one row coerced; every other cell is unchanged. */
  function CoerceRow(row: Row): (r: Row)
    ensures r.Keys == row.Keys
    ensures forall c :: c in row && c in NumericColumns ==> r[c].Num?
    ensures forall c :: c in row && c !in NumericColumns ==> r[c] == row[c]
    ensures KeyOf(r) == KeyOf(row)
  {
    KeyColumnsAreNotNumeric();
    map c | c in row :: if c in NumericColumns then Coerced(c, row[c]) else row[c]
  }

  lemma KeyColumnsAreNotNumeric()
    ensures "titel" !in NumericColumns && "isbn" !in NumericColumns
  {
  }

  /** The coercion of all rows: the shape and the (titel, isbn) keys are kept. */
  function CoerceFrame(f: Frame): (g: Frame)
    ensures g.columns == f.columns && |g.rows| == |f.rows|
    ensures WellFormed(f) ==> WellFormed(g)
    ensures forall i :: 0 <= i < |f.rows| ==> KeyOf(g.rows[i]) == KeyOf(f.rows[i])
    ensures forall i, c :: 0 <= i < |g.rows| && c in g.rows[i] && c in NumericColumns ==> g.rows[i][c].Num?
  {
    Frame(f.columns, seq(|f.rows|, i requires 0 <= i < |f.rows| => CoerceRow(f.rows[i])))
  }

  /** A price written the Dutch way, `€12,50`, becomes the number 12.5. */
  lemma {:induction false} PriceInDutchNotation(whole: string, fraction: string)
    requires whole != [] && AllDigits(whole) && AllDigits(fraction)
    ensures Coerced("prijs", Str([Euro] + whole + "," + fraction))
            == Num(DecimalValue(whole, fraction))
  {
    CleanDutchPrice(whole, fraction);
    ParseDecimalPoint(whole, fraction);
    CoercedPrice([Euro] + whole + "," + fraction, whole + "." + fraction,
                 DecimalValue(whole, fraction));
  }

  /** A price whose cleaned form parses is coerced to the parsed value. */
  lemma CoercedPrice(s: string, cleaned: string, v: real)
    requires CleanPrice(s) == cleaned && ParseDecimal(cleaned) == Some(v)
    ensures Coerced("prijs", Str(s)) == Num(v)
  {
  }

  lemma {:induction false} CleanDutchPrice(whole: string, fraction: string)
    requires AllDigits(whole) && AllDigits(fraction)
    ensures CleanPrice([Euro] + whole + "," + fraction) == whole + "." + fraction
  {
    var tail := [','] + fraction;
    assert [Euro] + whole + "," + fraction == [Euro] + (whole + tail);
    calc {
      CleanPrice([Euro] + (whole + tail));
      { EuroIsDropped(whole + tail); }
      CleanPrice(whole + tail);
      { CleanPriceAppend(whole, tail); }
      CleanPrice(whole) + CleanPrice(tail);
      { NoPriceMarks(whole); CommaBecomesPoint(fraction); NoPriceMarks(fraction); }
      whole + (['.'] + fraction);
    }
    assert whole + (['.'] + fraction) == whole + "." + fraction;
  }

  lemma {:induction false} CommaBecomesPoint(s: string)
    ensures CleanPrice([','] + s) == ['.'] + CleanPrice(s)
  {
    assert ([','] + s)[0] == ',' && ([','] + s)[1..] == s;
  }

  lemma {:induction false} EuroIsDropped(s: string)
    ensures CleanPrice([Euro] + s) == CleanPrice(s)
  {
    assert ([Euro] + s)[0] == Euro && ([Euro] + s)[1..] == s;
  }

  lemma {:induction false} NoPriceMarks(s: string)
    requires AllDigits(s)
    ensures CleanPrice(s) == s
  {
    assert Euro !in s && ',' !in s by {
      forall i | 0 <= i < |s| ensures s[i] != Euro && s[i] != ',' { assert IsDigit(s[i]); }
    }
    CleanPriceKeeps(s);
  }

  /** An empty cell in a numeric column becomes 0. */
  lemma EmptyBecomesZero(column: string)
    ensures Coerced(column, Str("")) == Num(0.0)
  {
  }

  /**
   * The letters that can occur in a number `to_numeric` reads: the exponent
   * of `1e3`, and those of `inf`, `infinity` and `nan` in either case.
   */
  const NumberLetters: string := "eEinfatyINFATY"

  /** A value holding a character that no number `to_numeric` reads contains becomes 0. */
  lemma {:induction false} UnparseableBecomesZero(column: string, s: string, i: nat)
    requires i < |s| && !IsDigit(s[i]) && s[i] != '.' && s[i] != '+' && s[i] != '-' && !IsSpace(s[i])
    requires s[i] != Euro && s[i] != ',' && s[i] !in NumberLetters
    ensures Coerced(column, Str(s)) == Num(0.0)
  {
    if column == "prijs" {
      assert s == s[..i] + [s[i]] + s[i + 1..];
      CleanPriceAppend(s[..i] + [s[i]], s[i + 1..]);
      CleanPriceAppend(s[..i], [s[i]]);
      var t := CleanPrice(s);
      assert t[|CleanPrice(s[..i])|] == s[i];
      ParseDecimalRejects(t, |CleanPrice(s[..i])|);
    } else {
      ParseDecimalRejects(s, i);
    }
  }

  /** The `added_date` column: kept when the upload has one, otherwise added holding the import time. */
  function Stamp(f: Frame, now: string): (g: Frame)
    requires WellFormed(f)
    ensures WellFormed(g) && AddedDate in g.columns && |g.rows| == |f.rows|
    ensures |f.columns| <= |g.columns| && g.columns[..|f.columns|] == f.columns
    ensures forall i, c :: 0 <= i < |f.rows| && c in f.rows[i] ==> c in g.rows[i] && g.rows[i][c] == f.rows[i][c]
    ensures AddedDate !in f.columns ==> forall i :: 0 <= i < |g.rows| ==> g.rows[i][AddedDate] == Str(now)
  {
    if AddedDate in f.columns then f else AddColumn(f, AddedDate, Str(now))
  }

  // ---------------------------------------------------------------------------
  // The whole preparation

  /** A frame ready for the writer: every table column present, keys unique, the numeric columns numbers. */
  ghost predicate Prepared(f: Frame) {
    && WellFormed(f)
    && UniqueKeys(f.rows)
    && (forall c :: c in SchemaColumns ==> c in f.columns)
    && (forall i, c :: 0 <= i < |f.rows| && c in NumericColumns ==> f.rows[i][c].Num?)
  }

  /** The stages after the schema check, applied to the records under the mapped header. */
  function PreparedFrame(columns: seq<string>, records: seq<seq<string>>, now: string): Frame
    requires Distinct(columns)
  {
    Finish(FillFrom(ToFrame(columns, records), ExpectedColumns), now)
  }

  /** Deduplication, coercion and the stamp, on a filled frame. */
  function Finish(filled: Frame, now: string): (g: Frame)
    requires WellFormed(filled)
    ensures |filled.columns| <= |g.columns| && g.columns[..|filled.columns|] == filled.columns
  {
    var deduped := Frame(filled.columns, Dedup(filled.rows));
    DedupKeepsShape(filled);
    Stamp(CoerceFrame(deduped), now)
  }

  lemma {:induction false} DedupKeepsShape(f: Frame)
    requires WellFormed(f)
    ensures WellFormed(Frame(f.columns, Dedup(f.rows)))
  {
    var d := Dedup(f.rows);
    forall i | 0 <= i < |d| ensures d[i].Keys == ColumnSet(f.columns) {
      assert d[i] in f.rows;
    }
  }

  /** The prepared frame is ready for the writer. */
  lemma {:induction false} PreparedFrameIsPrepared(columns: seq<string>, records: seq<seq<string>>, now: string)
    requires Distinct(columns)
    ensures Prepared(PreparedFrame(columns, records, now))
  {
    var raw := ToFrame(columns, records);
    FillAddsExpected(raw, ExpectedColumns);
    FinishIsPrepared(FillFrom(raw, ExpectedColumns), now);
  }

  /** The prepared frame holds exactly one row for each (titel, isbn) key of the upload. */
  lemma {:induction false} PreparedFrameKeys(columns: seq<string>, records: seq<seq<string>>, now: string)
    requires Distinct(columns)
    ensures KeySet(PreparedFrame(columns, records, now).rows) == KeySet(ToFrame(columns, records).rows)
    ensures |PreparedFrame(columns, records, now).rows| == |KeySet(ToFrame(columns, records).rows)|
  {
    var raw := ToFrame(columns, records);
    FillKeepsKeys(raw, ExpectedColumns);
    FinishKeys(FillFrom(raw, ExpectedColumns), now);
    UniqueKeysCount(PreparedFrame(columns, records, now).rows);
  }

  lemma {:induction false} FillKeepsKeys(f: Frame, expected: seq<string>)
    requires WellFormed(f)
    ensures KeySet(FillFrom(f, expected).rows) == KeySet(f.rows)
  {
    FillKeepsReadings(f, expected);
    KeySetOfSameKeys(FillFrom(f, expected).rows, f.rows);
  }

  /** Deduplication, coercion and the stamp keep one row per key of the filled frame. */
  lemma {:induction false} FinishKeys(filled: Frame, now: string)
    requires WellFormed(filled)
    ensures KeySet(Finish(filled, now).rows) == KeySet(filled.rows)
    ensures UniqueKeys(Finish(filled, now).rows)
  {
    var deduped := Frame(filled.columns, Dedup(filled.rows));
    DedupKeepsShape(filled);
    var coerced := CoerceFrame(deduped);
    KeySetOfSameKeys(coerced.rows, deduped.rows);
    var g := Stamp(coerced, now);
    StampKeepsKeys(coerced, now);
    KeySetOfSameKeys(g.rows, coerced.rows);
  }

  /** The upload's own columns stay in front, in their order. */
  lemma {:induction false} PreparedFrameColumns(columns: seq<string>, records: seq<seq<string>>, now: string)
    requires Distinct(columns)
    ensures |columns| <= |PreparedFrame(columns, records, now).columns|
    ensures PreparedFrame(columns, records, now).columns[..|columns|] == columns
  {
    var filled := FillFrom(ToFrame(columns, records), ExpectedColumns);
    PrefixOfPrefix(columns, filled.columns, Finish(filled, now).columns);
  }

  lemma {:induction false} PrefixOfPrefix(a: seq<string>, b: seq<string>, c: seq<string>)
    requires |a| <= |b| <= |c| && b[..|a|] == a && c[..|b|] == b
    ensures c[..|a|] == a
  {
    assert c[..|a|] == c[..|b|][..|a|];
  }

  lemma {:induction false} FinishIsPrepared(filled: Frame, now: string)
    requires WellFormed(filled)
    requires forall c :: c in ExpectedColumns ==> c in filled.columns
    ensures Prepared(Finish(filled, now))
    ensures |filled.columns| <= |Finish(filled, now).columns|
    ensures Finish(filled, now).columns[..|filled.columns|] == filled.columns
    ensures KeySet(Finish(filled, now).rows) == KeySet(filled.rows)
  {
    var deduped := Frame(filled.columns, Dedup(filled.rows));
    DedupKeepsShape(filled);
    var coerced := CoerceFrame(deduped);
    KeySetOfSameKeys(coerced.rows, deduped.rows);
    var g := Stamp(coerced, now);
    StampKeepsKeys(coerced, now);
    KeySetOfSameKeys(g.rows, coerced.rows);
    StampKeepsNumbers(coerced, now);
    HasTableColumns(filled.columns, g.columns);
  }

  /** The stamp changes neither the (titel, isbn) key of a row nor a number in it. */
  lemma {:induction false} StampKeepsKeys(f: Frame, now: string)
    requires WellFormed(f)
    ensures forall i :: 0 <= i < |f.rows| ==> KeyOf(Stamp(f, now).rows[i]) == KeyOf(f.rows[i])
  {
    var g := Stamp(f, now);
    forall i | 0 <= i < |f.rows| ensures KeyOf(g.rows[i]) == KeyOf(f.rows[i]) {
      if AddedDate !in f.columns {
        assert g.rows[i] == f.rows[i][AddedDate := Str(now)];
      }
    }
  }

  lemma {:induction false} StampKeepsNumbers(f: Frame, now: string)
    requires WellFormed(f)
    requires forall c :: c in ExpectedColumns ==> c in f.columns
    requires forall i, c :: 0 <= i < |f.rows| && c in f.rows[i] && c in NumericColumns ==> f.rows[i][c].Num?
    ensures forall i, c :: 0 <= i < |f.rows| && c in NumericColumns ==> Stamp(f, now).rows[i][c].Num?
  {
    NumericColumnsAreExpected();
    forall i, c | 0 <= i < |f.rows| && c in NumericColumns ensures Stamp(f, now).rows[i][c].Num? {
      assert f.rows[i].Keys == ColumnSet(f.columns);
      assert c in f.rows[i];
    }
  }

  /** Columns that take in the expected ones, followed by the stamp, take in the whole table schema. */
  lemma {:induction false} HasTableColumns(filled: seq<string>, stamped: seq<string>)
    requires forall c :: c in ExpectedColumns ==> c in filled
    requires |filled| <= |stamped| && stamped[..|filled|] == filled && AddedDate in stamped
    ensures forall c :: c in SchemaColumns ==> c in stamped
  {
    forall c | c in SchemaColumns ensures c in stamped {
      if c != AddedDate {
        assert c in ExpectedColumns;
        var k := Position(filled, c);
        assert stamped[..|filled|][k] == c;
      }
    }
  }

  lemma NumericColumnsAreExpected()
    ensures forall c :: c in NumericColumns ==> c in ExpectedColumns
  {
  }

  /** Everything before the writer, as a value: the first error met, or the frame handed to the writer. */
  function Preparation(upload: Option<seq<bv8>>, decode: Decoder, read: Reader, now: string): Result<Frame, ImportError> {
    if upload.None? then Err(NotAnUpload)
    else
      match ReadOutcome(upload.value, decode, read)
      case Err(e) => Err(e)
      case Ok(t) =>
        var columns := MapHeaders(t.header);
        if "titel" !in columns then Err(MissingRequired(["titel"]))
        else if !Distinct(columns) then Err(DuplicateColumns(columns))
        else Ok(PreparedFrame(columns, t.records, now))
  }

  /**
   * The preparation succeeds exactly when there is an upload, some encoding
   * decodes it, the reader accepts it, a header maps to `titel` and no two
   * headers map to the same column; its frame is then ready for the writer.
   */
  lemma PreparationSucceeds(upload: Option<seq<bv8>>, decode: Decoder, read: Reader, now: string)
    ensures Preparation(upload, decode, read, now).Ok?
            <==> && upload.Some?
                 && ReadOutcome(upload.value, decode, read).Ok?
                 && "titel" in MapHeaders(ReadOutcome(upload.value, decode, read).value.header)
                 && Distinct(MapHeaders(ReadOutcome(upload.value, decode, read).value.header))
    ensures Preparation(upload, decode, read, now).Ok? ==> Prepared(Preparation(upload, decode, read, now).value)
  {
    if Preparation(upload, decode, read, now).Ok? {
      var t := ReadOutcome(upload.value, decode, read).value;
      PreparedFrameIsPrepared(MapHeaders(t.header), t.records, now);
    }
  }

  /** The read error, when there is one, is what the loader reports. */
  lemma ReadErrorIsReported(bytes: seq<bv8>, decode: Decoder, read: Reader, now: string)
    requires ReadOutcome(bytes, decode, read).Err?
    ensures Preparation(Some(bytes), decode, read, now) == Err(ReadOutcome(bytes, decode, read).error)
  {
  }

  /**
   * `load_csv_to_db` up to the writer: read the upload, clean and map the
   * header, require `titel`, fill, deduplicate, coerce and stamp.
   */
  method PrepareUpload(upload: Option<seq<bv8>>, decode: Decoder, read: Reader, now: string)
    returns (r: Result<Frame, ImportError>)
    ensures r == Preparation(upload, decode, read, now)
    ensures r.Ok? ==> Prepared(r.value)
  {
    if upload.None? {
      return Err(NotAnUpload);
    }
    var table := ReadUpload(upload.value, decode, read);
    if table.Err? {
      return Err(table.error);
    }
    var columns := MapHeaders(table.value.header);
    if "titel" !in columns {
      return Err(MissingRequired(["titel"]));
    }
    if !Distinct(columns) {
      return Err(DuplicateColumns(columns));
    }
    var filled := FillMissing(ToFrame(columns, table.value.records), ExpectedColumns);
    PreparedFrameIsPrepared(columns, table.value.records, now);
    return Ok(Finish(filled, now));
  }
}
