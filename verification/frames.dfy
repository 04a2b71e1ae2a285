/**
 * The in-memory table (pandas DataFrame) the import pipeline works on: named
 * columns and rows that map column names to cells.
 */
module Frames {

  /** A cell holds text until the numeric coercion turns it into a number. */
  datatype Cell = Str(text: string) | Num(value: real)

  type Row = map<string, Cell>

  datatype Frame = Frame(columns: seq<string>, rows: seq<Row>)

  /** A cell that is absent reads as the empty string. */
  function Get(row: Row, column: string): Cell {
    if column in row then row[column] else Str("")
  }

  /** The natural duplicate key of a book: its title and its ISBN. */
  type Key = (Cell, Cell)

  function KeyOf(row: Row): Key {
    (Get(row, "titel"), Get(row, "isbn"))
  }

  predicate Distinct<T(==)>(s: seq<T>) {
    forall i, j | 0 <= i < j < |s| :: s[i] != s[j]
  }

  function ColumnSet(columns: seq<string>): set<string> {
    set c | c in columns
  }

  /** Column names are distinct and every row has exactly the frame's columns. */
  ghost predicate WellFormed(f: Frame) {
    && Distinct(f.columns)
    && forall i :: 0 <= i < |f.rows| ==> f.rows[i].Keys == ColumnSet(f.columns)
  }

  /** No two rows share a (title, ISBN) key. */
  ghost predicate UniqueKeys(rows: seq<Row>) {
    forall i, j :: 0 <= i < j < |rows| ==> KeyOf(rows[i]) != KeyOf(rows[j])
  }

  function KeySet(rows: seq<Row>): set<Key> {
    set r | r in rows :: KeyOf(r)
  }

  /** `df[column] = value`: a new last column holding `value` in every row. */
  function AddColumn(f: Frame, column: string, value: Cell): (g: Frame)
    requires column !in f.columns
    ensures WellFormed(f) ==> WellFormed(g)
    ensures g.columns == f.columns + [column] && |g.rows| == |f.rows|
    ensures forall i :: 0 <= i < |g.rows| ==> g.rows[i] == f.rows[i][column := value]
  {
    Frame(f.columns + [column], seq(|f.rows|, i requires 0 <= i < |f.rows| => f.rows[i][column := value]))
  }

  lemma {:induction false} KeySetAppend(rows: seq<Row>, r: Row)
    ensures KeySet(rows + [r]) == KeySet(rows) + {KeyOf(r)}
  {
    assert forall x :: x in rows + [r] <==> x in rows || x == r;
  }

  /** Rows that carry the same keys position by position have the same key set. */
  lemma {:induction false} KeySetOfSameKeys(a: seq<Row>, b: seq<Row>)
    requires |a| == |b| && forall i :: 0 <= i < |a| ==> KeyOf(a[i]) == KeyOf(b[i])
    ensures KeySet(a) == KeySet(b)
  {
    forall k | k in KeySet(a) ensures k in KeySet(b) {
      var i :| 0 <= i < |a| && KeyOf(a[i]) == k;
      assert b[i] in b;
    }
    forall k | k in KeySet(b) ensures k in KeySet(a) {
      var i :| 0 <= i < |b| && KeyOf(b[i]) == k;
      assert a[i] in a;
    }
  }

  /** With unique keys there are as many keys as rows. */
  lemma {:induction false} UniqueKeysCount(rows: seq<Row>)
    requires UniqueKeys(rows)
    ensures |KeySet(rows)| == |rows|
  {
    if rows != [] {
      var prefix := rows[..|rows| - 1];
      var last := rows[|rows| - 1];
      assert rows == prefix + [last];
      UniqueKeysCount(prefix);
      KeySetAppend(prefix, last);
      assert KeyOf(last) !in KeySet(prefix);
    }
  }
}
