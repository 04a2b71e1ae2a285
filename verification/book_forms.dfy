/**
 * The book forms of the add and edit operations: which record a submitted
 * form describes, and when its numeric fields make the request fail.
 */
module BookForms {
  import opened Wrappers
  import opened Text
  import opened Numbers
  import opened Frames
  import opened CsvImport

  /** A submitted HTML form: field name to submitted text. */
  type Form = map<string, string>

  /** `form.get(name, '')`. */
  function FormText(form: Form, name: string): string {
    if name in form then form[name] else ""
  }

  /**
   * `float(v) if v else 0.0`: an empty field is 0, anything else must parse.
   * `None` stands for the `ValueError` of a malformed number, which nothing
   * catches, so the request fails.
   */
  function PriceField(v: string): (c: Option<Cell>)
    ensures v == "" ==> c == Some(Num(0.0))
    ensures v != "" ==> (c.Some? <==> ParseDecimal(v).Some?)
    ensures c.Some? ==> c.value.Num?
  {
    if v == "" then Some(Num(0.0))
    else
      match ParseDecimal(v)
      case Some(x) => Some(Num(x))
      case None => None
  }

  /** `int(v) if v else 0`. */
  function CountField(v: string): (c: Option<Cell>)
    ensures v == "" ==> c == Some(Num(0.0))
    ensures v != "" ==> (c.Some? <==> ParseInt(v).Some?)
    ensures c.Some? ==> c.value.Num?
  {
    if v == "" then Some(Num(0.0))
    else
      match ParseInt(v)
      case Some(n) => Some(Num(n as real))
      case None => None
  }

  /** `int(v) if v.strip() else 0`: a blank series number is 0 in models/book.py. */
  function SeriesNumberField(v: string): (c: Option<Cell>)
    ensures IsBlank(v) ==> c == Some(Num(0.0))
    ensures !IsBlank(v) ==> (c.Some? <==> ParseInt(v).Some?)
  {
    if IsBlank(v) then Some(Num(0.0))
    else
      match ParseInt(v)
      case Some(n) => Some(Num(n as real))
      case None => None
  }

  /** How the series number is stored: parsed (models/book.py) or as typed (the app.py routes). */
  datatype SeriesMode = SeriesAsNumber | SeriesAsText

  function SeriesField(v: string, mode: SeriesMode): Option<Cell> {
    match mode
    case SeriesAsNumber => SeriesNumberField(v)
    case SeriesAsText => Some(Str(v))
  }

  /**
   * The record a form describes: every table column read from the field
   * `prefix + column`, the price and page count converted to numbers, the
   * series number as `mode` says, and `added` as the added date. `None` when a
   * conversion raises.
   */
  function FormRecord(form: Form, prefix: string, mode: SeriesMode, added: Cell): (r: Option<Row>)
    ensures r.Some? <==> && PriceField(FormText(form, prefix + "prijs")).Some?
                         && CountField(FormText(form, prefix + "paginas")).Some?
                         && SeriesField(FormText(form, prefix + "reeks_nr"), mode).Some?
    ensures r.Some? ==> r.value.Keys == ColumnSet(SchemaColumns)
  {
    var price := PriceField(FormText(form, prefix + "prijs"));
    var pages := CountField(FormText(form, prefix + "paginas"));
    var series := SeriesField(FormText(form, prefix + "reeks_nr"), mode);
    if price.None? || pages.None? || series.None? then None
    else
      Some(map c | c in SchemaColumns ::
             if c == "prijs" then price.value
             else if c == "paginas" then pages.value
             else if c == "reeks_nr" then series.value
             else if c == AddedDate then added
             else Str(FormText(form, prefix + c)))
  }

  /** A text column of the record holds exactly what was typed into its field. */
  lemma FormRecordText(form: Form, prefix: string, mode: SeriesMode, added: Cell, c: string)
    requires FormRecord(form, prefix, mode, added).Some?
    requires c in SchemaColumns && c !in NumericColumns && c != AddedDate
    ensures Get(FormRecord(form, prefix, mode, added).value, c) == Str(FormText(form, prefix + c))
  {
  }

  /** The record's added date is the one the caller supplies. */
  lemma FormRecordAdded(form: Form, prefix: string, mode: SeriesMode, added: Cell)
    requires FormRecord(form, prefix, mode, added).Some?
    ensures Get(FormRecord(form, prefix, mode, added).value, AddedDate) == added
  {
    AddedDateIsAColumn();
  }

  lemma AddedDateIsAColumn()
    ensures AddedDate in SchemaColumns && AddedDate !in NumericColumns
  {
  }

  /** Price and page count are numbers; left empty they are 0. */
  lemma FormRecordNumbers(form: Form, prefix: string, mode: SeriesMode, added: Cell)
    requires FormRecord(form, prefix, mode, added).Some?
    ensures Get(FormRecord(form, prefix, mode, added).value, "prijs").Num?
    ensures Get(FormRecord(form, prefix, mode, added).value, "paginas").Num?
    ensures FormText(form, prefix + "prijs") == "" ==> Get(FormRecord(form, prefix, mode, added).value, "prijs") == Num(0.0)
    ensures FormText(form, prefix + "paginas") == "" ==> Get(FormRecord(form, prefix, mode, added).value, "paginas") == Num(0.0)
  {
    NumericColumnsAreColumns();
  }

  /** The app.py routes store the series number exactly as typed. */
  lemma FormRecordSeriesText(form: Form, prefix: string, added: Cell)
    requires FormRecord(form, prefix, SeriesAsText, added).Some?
    ensures Get(FormRecord(form, prefix, SeriesAsText, added).value, "reeks_nr") == Str(FormText(form, prefix + "reeks_nr"))
  {
    NumericColumnsAreColumns();
  }

  lemma NumericColumnsAreColumns()
    ensures "prijs" in SchemaColumns && "paginas" in SchemaColumns && "reeks_nr" in SchemaColumns
  {
  }

  /** A form whose three numeric fields are empty always yields a record. */
  lemma EmptyNumbersAreAccepted(form: Form, prefix: string, mode: SeriesMode, added: Cell)
    requires FormText(form, prefix + "prijs") == "" && FormText(form, prefix + "paginas") == ""
    requires FormText(form, prefix + "reeks_nr") == ""
    ensures FormRecord(form, prefix, mode, added).Some?
  {
    assert IsBlank("");
  }

  /** Python truthiness of a stored value: non-empty text, a non-zero number. */
  predicate Truthy(c: Cell) {
    match c
    case Str(s) => s != ""
    case Num(x) => x != 0.0
  }

  /** `any(data.values())`. */
  predicate AnyFilled(r: Row) {
    exists c :: c in r && Truthy(r[c])
  }

  /** A record stamped with a non-empty time always has a filled-in value. */
  lemma StampedRecordIsFilled(form: Form, prefix: string, mode: SeriesMode, now: string)
    requires now != "" && FormRecord(form, prefix, mode, Str(now)).Some?
    ensures AnyFilled(FormRecord(form, prefix, mode, Str(now)).value)
  {
    StampedDate(form, prefix, mode, now);
    FilledAt(FormRecord(form, prefix, mode, Str(now)).value, AddedDate);
  }

  lemma StampedDate(form: Form, prefix: string, mode: SeriesMode, now: string)
    requires now != "" && FormRecord(form, prefix, mode, Str(now)).Some?
    ensures AddedDate in FormRecord(form, prefix, mode, Str(now)).value
    ensures Truthy(FormRecord(form, prefix, mode, Str(now)).value[AddedDate])
  {
    AddedDateIsAColumn();
    FormRecordAdded(form, prefix, mode, Str(now));
  }

  lemma FilledAt(r: Row, c: string)
    requires c in r && Truthy(r[c])
    ensures AnyFilled(r)
  {
  }
}
