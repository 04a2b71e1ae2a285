/**
 * The add, edit and delete operations on the `books` table, of
 * models/book.py and of the app.py routes, as functions of the table before
 * the request, and what they promise.
 */
module BookCrud {
  import opened Wrappers
  import opened Text
  import opened Frames
  import opened CsvImport
  import opened BookStore
  import opened BookForms

  /** What an add, edit or delete reports. */
  datatype CrudOutcome =
    | Done            // the operation was carried out
    | TitleRequired   // "Titel is verplicht!"
    | MissingId       // "Geen boek-ID opgegeven!"
    | NotFound        // no book has the id
    | InvalidNumber   // `float()` or `int()` raised: the request fails
    | NothingFilled   // "Vul ten minste één veld in!"

  /** The ids of the stored books. */
  function Ids(books: seq<Book>): set<int> {
    set b | b in books :: b.id as int
  }

  /** Where the book with id `id` is. */
  function IndexOfId(books: seq<Book>, id: int): (i: nat)
    requires id in Ids(books)
    ensures i < |books| && books[i].id == id
    ensures forall j :: 0 <= j < i ==> books[j].id != id
  {
    if books[0].id == id then 0
    else
      assert id in Ids(books[1..]) by {
        var b :| b in books && b.id == id;
        assert books == [books[0]] + books[1..];
      }
      1 + IndexOfId(books[1..], id)
  }

  /** `UPDATE books SET ... WHERE id = ?`: every book with that id gets the record. */
  function Updated(books: seq<Book>, id: int, record: Row): (u: seq<Book>)
    ensures |u| == |books|
    ensures forall i :: 0 <= i < |books| ==> u[i].id == books[i].id
    ensures forall i :: 0 <= i < |books| ==> u[i].record == if books[i].id == id then record else books[i].record
  {
    seq(|books|, i requires 0 <= i < |books| => if books[i].id == id then Book(books[i].id, record) else books[i])
  }

  /** `DELETE FROM books WHERE id = ?`: the books with that id are gone, the others stay in order. */
  function Removed(books: seq<Book>, id: int): (u: seq<Book>)
    ensures |u| <= |books|
  {
    if books == [] then []
    else (if books[0].id == id then [] else [books[0]]) + Removed(books[1..], id)
  }

  // ---------------------------------------------------------------------------
  // models/book.py

  /** `add_book`: a blank title is refused; otherwise the form's record is inserted, stamped `now`. */
  function AddedBook(t: Table, form: Form, now: string): (Table, CrudOutcome) {
    if IsBlank(FormText(form, "titel")) then (t, TitleRequired)
    else
      match FormRecord(form, "", SeriesAsNumber, Str(now))
      case None => (t, InvalidNumber)
      case Some(r) => (Insert(t, r), Done)
  }

  /**
   * `edit_book`: a missing id, then a blank title, is refused; otherwise the
   * book with that id gets the form's record, added date included.
   */
  function EditedBook(t: Table, bookId: Option<int>, form: Form): (Table, CrudOutcome) {
    if bookId.None? || bookId.value == 0 then (t, MissingId)
    else if IsBlank(FormText(form, "titel")) then (t, TitleRequired)
    else
      match FormRecord(form, "", SeriesAsNumber, Str(FormText(form, AddedDate)))
      case None => (t, InvalidNumber)
      case Some(r) => (Table(Updated(t.books, bookId.value, r), t.nextId), Done)
  }

  /** `delete_book`, and the delete route of app.py: an unknown id is reported and nothing changes. */
  function DeletedBook(t: Table, id: int): (Table, CrudOutcome) {
    if id !in Ids(t.books) then (t, NotFound)
    else (Table(Removed(t.books, id), t.nextId), Done)
  }

  // ---------------------------------------------------------------------------
  // The app.py routes

  /**
   * The add branch of the index route: fields prefixed `add_`, the series
   * number kept as typed, no title check, and a guard that refuses a record
   * with nothing filled in.
   */
  function RouteAdded(t: Table, form: Form, now: string): (Table, CrudOutcome) {
    match FormRecord(form, "add_", SeriesAsText, Str(now))
    case None => (t, InvalidNumber)
    case Some(r) => if !AnyFilled(r) then (t, NothingFilled) else (Insert(t, r), Done)
  }

  /** The edit route: an unknown id is reported; otherwise the book is updated, keeping its added date. */
  function RouteEdited(t: Table, id: int, form: Form): (Table, CrudOutcome) {
    if id !in Ids(t.books) then (t, NotFound)
    else
      var added := Get(t.books[IndexOfId(t.books, id)].record, AddedDate);
      match FormRecord(form, "", SeriesAsText, added)
      case None => (t, InvalidNumber)
      case Some(r) => (Table(Updated(t.books, id, r), t.nextId), Done)
  }

  // ---------------------------------------------------------------------------
  // What the operations promise

  /** An insert appends one book with the next id and leaves the stored books alone. */
  lemma Inserted(t: Table, r: Row)
    ensures |Insert(t, r).books| == |t.books| + 1 && Insert(t, r).books[..|t.books|] == t.books
    ensures Insert(t, r).books[|t.books|] == Book(t.nextId, r) && Insert(t, r).nextId == t.nextId + 1
  {
    assert Insert(t, r).books[..|t.books|] == t.books;
  }

  lemma TitleIsAText()
    ensures "titel" in SchemaColumns && "titel" !in NumericColumns && "titel" != AddedDate
  {
  }

  /** The form fields the title and the series number are read from. */
  lemma FieldNames()
    ensures "" + "titel" == "titel"
    ensures "add_" + "titel" == "add_titel" && "add_" + "reeks_nr" == "add_reeks_nr"
  {
  }

  /**
   * `add_book` refuses exactly the blank titles and, after them, a malformed
   * number; what it refuses leaves the store alone.
   */
  lemma AddBookRefusals(t: Table, form: Form, now: string)
    ensures AddedBook(t, form, now).1 == TitleRequired <==> IsBlank(FormText(form, "titel"))
    ensures AddedBook(t, form, now).1 == InvalidNumber
        <==> !IsBlank(FormText(form, "titel")) && FormRecord(form, "", SeriesAsNumber, Str(now)).None?
    ensures AddedBook(t, form, now).1 != Done ==> AddedBook(t, form, now).0 == t
  {
  }

  /** When `add_book` succeeds it appends one book with the next id, the typed title and the time of the request. */
  lemma AddBookStores(t: Table, form: Form, now: string)
    requires AddedBook(t, form, now).1 == Done
    ensures var u := AddedBook(t, form, now).0;
            && |u.books| == |t.books| + 1 && u.books[..|t.books|] == t.books
            && u.books[|t.books|].id == t.nextId && u.nextId == t.nextId + 1
            && Get(u.books[|t.books|].record, "titel") == Str(FormText(form, "titel"))
            && Get(u.books[|t.books|].record, AddedDate) == Str(now)
  {
    var r := FormRecord(form, "", SeriesAsNumber, Str(now)).value;
    assert AddedBook(t, form, now).0 == Insert(t, r);
    Inserted(t, r);
    TitleIsAText();
    FieldNames();
    FormRecordText(form, "", SeriesAsNumber, Str(now), "titel");
    FormRecordAdded(form, "", SeriesAsNumber, Str(now));
  }

  /**
   * `edit_book` refuses a missing id before anything else and a blank title
   * next; whatever it refuses leaves the store alone.
   */
  lemma EditBookRefusals(t: Table, bookId: Option<int>, form: Form)
    ensures EditedBook(t, bookId, form).1 == MissingId <==> bookId.None? || bookId.value == 0
    ensures EditedBook(t, bookId, form).1 == TitleRequired
        <==> !(bookId.None? || bookId.value == 0) && IsBlank(FormText(form, "titel"))
    ensures EditedBook(t, bookId, form).1 != Done ==> EditedBook(t, bookId, form).0 == t
  {
  }

  /**
   * When `edit_book` succeeds the ids and the order stay, the book with the id
   * gets the typed title and the added date the form sends back, and every
   * other book is untouched.
   */
  lemma EditBookStores(t: Table, bookId: Option<int>, form: Form)
    requires EditedBook(t, bookId, form).1 == Done
    ensures bookId.Some?
    ensures var u := EditedBook(t, bookId, form).0;
            && u.nextId == t.nextId && |u.books| == |t.books|
            && (forall i :: 0 <= i < |t.books| ==> u.books[i].id == t.books[i].id)
            && (forall i :: 0 <= i < |t.books| && t.books[i].id != bookId.value ==> u.books[i] == t.books[i])
            && (forall i :: 0 <= i < |t.books| && t.books[i].id == bookId.value ==>
                  && Get(u.books[i].record, "titel") == Str(FormText(form, "titel"))
                  && Get(u.books[i].record, AddedDate) == Str(FormText(form, AddedDate)))
  {
    var added := Str(FormText(form, AddedDate));
    var r := FormRecord(form, "", SeriesAsNumber, added).value;
    var u := EditedBook(t, bookId, form).0;
    assert u == Table(Updated(t.books, bookId.value, r), t.nextId);
    TitleIsAText();
    FieldNames();
    FormRecordText(form, "", SeriesAsNumber, added, "titel");
    FormRecordAdded(form, "", SeriesAsNumber, added);
    forall i | 0 <= i < |t.books| && t.books[i].id == bookId.value
      ensures Get(u.books[i].record, "titel") == Str(FormText(form, "titel"))
      ensures Get(u.books[i].record, AddedDate) == added
    {
      assert u.books[i].record == r;
    }
  }

  /** `edit_book` of an id no book has reports success and changes nothing. */
  lemma EditOfUnknownIdChangesNothing(t: Table, bookId: Option<int>, form: Form)
    requires bookId.Some? && bookId.value !in Ids(t.books)
    ensures EditedBook(t, bookId, form).0 == t
  {
    var u := EditedBook(t, bookId, form).0;
    if EditedBook(t, bookId, form).1 == Done {
      EditBookStores(t, bookId, form);
      forall i | 0 <= i < |t.books| ensures u.books[i] == t.books[i] {
        assert t.books[i] in t.books;
      }
    }
  }

  /**
   * Deleting an unknown id reports it and changes nothing; deleting a known
   * id from a valid table removes exactly that book and keeps the others in
   * their order.
   */
  lemma DeleteBookRules(t: Table, id: int)
    requires ValidTable(t)
    ensures var (u, outcome) := DeletedBook(t, id);
            && (outcome == NotFound <==> id !in Ids(t.books))
            && (outcome == NotFound ==> u == t)
            && (outcome == Done ==>
                  var i := IndexOfId(t.books, id);
                  && u == Table(t.books[..i] + t.books[i + 1..], t.nextId)
                  && Ids(u.books) == Ids(t.books) - {id})
  {
    if id in Ids(t.books) {
      var i := IndexOfId(t.books, id);
      RemovedOnce(t.books, id);
      SpliceIds(t, i);
    }
  }

  /** In an ascending table the book with an id is the only one: removing the id removes just it. */
  lemma RemovedOnce(books: seq<Book>, id: int)
    requires Ascending(books) && id in Ids(books)
    ensures Removed(books, id) == books[..IndexOfId(books, id)] + books[IndexOfId(books, id) + 1..]
  {
    var i := IndexOfId(books, id);
    forall j | 0 <= j < |books| && j != i ensures books[j].id != id {
      if i < j {
        AscendingOrders(books, i, j);
      }
    }
    RemovedAt(books, i, id);
  }

  /** Removing the id of exactly one book takes out just that book. */
  lemma RemovedAt(books: seq<Book>, i: nat, id: int)
    requires i < |books| && books[i].id == id
    requires forall j :: 0 <= j < |books| && j != i ==> books[j].id != id
    ensures Removed(books, id) == books[..i] + books[i + 1..]
  {
    var a, b := books[..i], books[i + 1..];
    assert books == a + ([books[i]] + b);
    RemovedSplit(a, [books[i]] + b, id);
    RemovedSplit([books[i]], b, id);
    assert Removed([books[i]], id) == [] by {
      assert [books[i]][1..] == [];
    }
    forall j | 0 <= j < |a| ensures a[j].id != id {
      assert a[j] == books[j];
    }
    forall j | 0 <= j < |b| ensures b[j].id != id {
      assert b[j] == books[i + 1 + j];
    }
    RemovedAbsent(a, id);
    RemovedAbsent(b, id);
  }

  lemma {:induction false} RemovedSplit(a: seq<Book>, b: seq<Book>, id: int)
    ensures Removed(a + b, id) == Removed(a, id) + Removed(b, id)
  {
    if a != [] {
      assert (a + b)[1..] == a[1..] + b;
      RemovedSplit(a[1..], b, id);
    } else {
      assert a + b == b;
    }
  }

  lemma {:induction false} RemovedAbsent(books: seq<Book>, id: int)
    requires forall j :: 0 <= j < |books| ==> books[j].id != id
    ensures Removed(books, id) == books
  {
    if books != [] {
      RemovedAbsent(books[1..], id);
      assert books == [books[0]] + books[1..];
    }
  }

  /** The ids left after taking out the i-th book of a table whose ids are distinct. */
  lemma SpliceIds(t: Table, i: nat)
    requires ValidTable(t) && i < |t.books|
    ensures Ids(t.books[..i] + t.books[i + 1..]) == Ids(t.books) - {t.books[i].id as int}
  {
    var a, c := t.books[..i], t.books[i + 1..];
    assert t.books == a + [t.books[i]] + c;
    SmallerBefore(t.books, i);
    LargerAfter(t.books, i, c);
    RemoveMiddle(a, t.books[i], c);
  }

  /** Taking a book out from between two runs that do not hold its id takes exactly its id out. */
  lemma RemoveMiddle(a: seq<Book>, x: Book, c: seq<Book>)
    requires x.id as int !in Ids(a) && x.id as int !in Ids(c)
    ensures Ids(a + c) == Ids(a + [x] + c) - {x.id as int}
  {
    IdsConcat(a + [x], c);
    IdsConcat(a, [x]);
    IdsConcat(a, c);
    assert Ids([x]) == {x.id as int};
  }

  lemma IdsConcat(a: seq<Book>, b: seq<Book>)
    ensures Ids(a + b) == Ids(a) + Ids(b)
  {
  }

  /** In an ascending table every book before position `i` has a smaller id. */
  lemma SmallerBefore(books: seq<Book>, i: nat)
    requires Ascending(books) && i < |books|
    ensures forall id :: id in Ids(books[..i]) ==> id < books[i].id
  {
    forall id | id in Ids(books[..i]) ensures id < books[i].id {
      var j :| 0 <= j < i && books[..i][j].id == id;
      AscendingOrders(books, j, i);
    }
  }

  /** In an ascending table every book after position `i` has a larger id. */
  lemma LargerAfter(books: seq<Book>, i: nat, after: seq<Book>)
    requires Ascending(books) && i < |books| && after == books[i + 1..]
    ensures forall id :: id in Ids(after) ==> id > books[i].id
  {
    forall id | id in Ids(after) ensures id > books[i].id {
      var j :| 0 <= j < |after| && after[j].id == id;
      AscendingOrders(books, i, i + 1 + j);
    }
  }

  /** Taking out one book keeps a table valid. */
  lemma SpliceKeepsValid(t: Table, i: nat)
    requires ValidTable(t) && i < |t.books|
    ensures ValidTable(Table(t.books[..i] + t.books[i + 1..], t.nextId))
  {
    SpliceAscending(t.books, i);
    SpliceFrom(t.books, i, t.books[..i] + t.books[i + 1..]);
  }

  /** Every book left after the splice is the book at the same or the next position. */
  lemma SpliceFrom(books: seq<Book>, i: nat, rest: seq<Book>)
    requires i < |books| && rest == books[..i] + books[i + 1..]
    ensures |rest| == |books| - 1
    ensures forall j :: 0 <= j < i ==> rest[j] == books[j]
    ensures forall j :: i <= j < |rest| ==> rest[j] == books[j + 1]
  {
  }

  /** Taking out one book keeps the ids ascending. */
  lemma SpliceAscending(books: seq<Book>, i: nat)
    requires Ascending(books) && i < |books|
    ensures Ascending(books[..i] + books[i + 1..])
  {
    var rest := books[..i] + books[i + 1..];
    SpliceFrom(books, i, rest);
    forall j, k | 0 <= j < k < |rest| ensures rest[j].id < rest[k].id {
      AscendingOrders(books, if j < i then j else j + 1, if k < i then k else k + 1);
    }
    AscendingIfOrdered(rest);
  }

  /** Updating records keeps a table valid, as long as the new records have every column. */
  lemma UpdatedKeepsValid(t: Table, id: int, record: Row)
    requires ValidTable(t) && IsRecord(record)
    ensures ValidTable(Table(Updated(t.books, id, record), t.nextId))
  {
    var u := Updated(t.books, id, record);
    forall j, k | 0 <= j < k < |u| ensures u[j].id < u[k].id {
      AscendingOrders(t.books, j, k);
    }
    AscendingIfOrdered(u);
  }

  /** Every operation keeps a valid table valid. */
  lemma AddKeepsValid(t: Table, form: Form, now: string)
    requires ValidTable(t)
    ensures ValidTable(AddedBook(t, form, now).0)
  {
    var rec := FormRecord(form, "", SeriesAsNumber, Str(now));
    if !IsBlank(FormText(form, "titel")) && rec.Some? {
      InsertKeepsValid(t, rec.value);
    }
  }

  lemma EditKeepsValid(t: Table, bookId: Option<int>, form: Form)
    requires ValidTable(t)
    ensures ValidTable(EditedBook(t, bookId, form).0)
  {
    var rec := FormRecord(form, "", SeriesAsNumber, Str(FormText(form, AddedDate)));
    if EditedBook(t, bookId, form).1 == Done {
      UpdatedKeepsValid(t, bookId.value, rec.value);
    }
  }

  lemma DeleteKeepsValid(t: Table, id: int)
    requires ValidTable(t)
    ensures ValidTable(DeletedBook(t, id).0)
  {
    if id in Ids(t.books) {
      RemovedOnce(t.books, id);
      SpliceKeepsValid(t, IndexOfId(t.books, id));
    }
  }

  lemma RouteAddKeepsValid(t: Table, form: Form, now: string)
    requires ValidTable(t)
    ensures ValidTable(RouteAdded(t, form, now).0)
  {
    var rec := FormRecord(form, "add_", SeriesAsText, Str(now));
    if rec.Some? {
      InsertKeepsValid(t, rec.value);
    }
  }

  lemma RouteEditKeepsValid(t: Table, id: int, form: Form)
    requires ValidTable(t)
    ensures ValidTable(RouteEdited(t, id, form).0)
  {
    if RouteEdited(t, id, form).1 == Done {
      var added := Get(t.books[IndexOfId(t.books, id)].record, AddedDate);
      UpdatedKeepsValid(t, id, FormRecord(form, "", SeriesAsText, added).value);
    }
  }

  /**
   * The app.py add route checks no title and refuses only a malformed number:
   * its "fill in at least one field" guard never refuses, because the record
   * always carries the non-empty time of the request.
   */
  lemma RouteAddRefusals(t: Table, form: Form, now: string)
    requires now != ""
    ensures RouteAdded(t, form, now).1 != NothingFilled
    ensures RouteAdded(t, form, now).1 == InvalidNumber <==> FormRecord(form, "add_", SeriesAsText, Str(now)).None?
    ensures RouteAdded(t, form, now).1 == InvalidNumber ==> RouteAdded(t, form, now).0 == t
  {
    if FormRecord(form, "add_", SeriesAsText, Str(now)).Some? {
      StampedRecordIsFilled(form, "add_", SeriesAsText, now);
    }
  }

  /** When the add route succeeds it appends one book holding the typed title and the series number as typed. */
  lemma RouteAddStores(t: Table, form: Form, now: string)
    requires RouteAdded(t, form, now).1 == Done
    ensures var u := RouteAdded(t, form, now).0;
            && |u.books| == |t.books| + 1 && u.books[..|t.books|] == t.books
            && u.books[|t.books|].id == t.nextId
            && Get(u.books[|t.books|].record, "titel") == Str(FormText(form, "add_titel"))
            && Get(u.books[|t.books|].record, "reeks_nr") == Str(FormText(form, "add_reeks_nr"))
  {
    var r := FormRecord(form, "add_", SeriesAsText, Str(now)).value;
    assert RouteAdded(t, form, now).0 == Insert(t, r);
    Inserted(t, r);
    TitleIsAText();
    FieldNames();
    FormRecordText(form, "add_", SeriesAsText, Str(now), "titel");
    FormRecordSeriesText(form, "add_", Str(now));
  }

  /** The app.py edit route reports an unknown id, and what it refuses leaves the store alone. */
  lemma RouteEditRefusals(t: Table, id: int, form: Form)
    ensures RouteEdited(t, id, form).1 == NotFound <==> id !in Ids(t.books)
    ensures RouteEdited(t, id, form).1 != Done ==> RouteEdited(t, id, form).0 == t
  {
  }

  /**
   * When the edit route succeeds it keeps the id and the original added date
   * of the book it edits, stores the typed title, and leaves every other book
   * alone.
   */
  lemma RouteEditStores(t: Table, id: int, form: Form)
    requires ValidTable(t) && RouteEdited(t, id, form).1 == Done
    ensures id in Ids(t.books)
    ensures var u := RouteEdited(t, id, form).0;
            var i := IndexOfId(t.books, id);
            && |u.books| == |t.books| && u.nextId == t.nextId
            && u.books[i].id == id
            && Get(u.books[i].record, AddedDate) == Get(t.books[i].record, AddedDate)
            && Get(u.books[i].record, "titel") == Str(FormText(form, "titel"))
            && (forall j :: 0 <= j < |t.books| && j != i ==> u.books[j] == t.books[j])
  {
    var i := IndexOfId(t.books, id);
    var added := Get(t.books[i].record, AddedDate);
    var r := FormRecord(form, "", SeriesAsText, added).value;
    var u := RouteEdited(t, id, form).0;
    assert u == Table(Updated(t.books, id, r), t.nextId);
    FormRecordAdded(form, "", SeriesAsText, added);
    TitleIsAText();
    FieldNames();
    FormRecordText(form, "", SeriesAsText, added, "titel");
    forall j | 0 <= j < |t.books| && j != i ensures u.books[j] == t.books[j] {
      if t.books[j].id == id {
        IdsAreUnique(t, i, j);
      }
    }
  }
}
