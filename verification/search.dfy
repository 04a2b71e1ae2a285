/**
 * The search queries: `search_books` of models/book.py, which grows
 * `SELECT * FROM books WHERE 1=1` by one condition per filter, and the two
 * app.py builders (the search branch of the index route and the `/search`
 * route), which collect `LIKE` conditions and join them after `WHERE`.
 * A query is its SQL text and the values bound to its `?` placeholders.
 */
module Search {
  import opened Wrappers
  import opened Text
  import opened Numbers
  import opened CsvImport
  import opened BookStore
  import opened BookForms

  /** A value bound to a `?` of the query. */
  datatype Param = Pattern(pattern: string) | Whole(n: int) | Decimal(x: real)

  /** A query under construction: its SQL text and the values for its placeholders, in order. */
  datatype Query = Query(sql: string, params: seq<Param>)

  /** The number of `?` placeholders in an SQL text. */
  function Placeholders(s: string): nat {
    if s == [] then 0
    else Placeholders(s[..|s| - 1]) + (if s[|s| - 1] == '?' then 1 else 0)
  }

  /** sqlite binds a query only when it supplies exactly one value per placeholder. */
  predicate Bindable(q: Query) {
    Placeholders(q.sql) == |q.params|
  }

  /** The text columns searched with `LIKE`, in the order the conditions are added. */
  const TextFilters: seq<string> := [
    "titel", "auteur_voornaam", "auteur_achternaam", "genre", "uitgeverij", "isbn",
    "serie", "staat", "taal", "gesigneerd", "gelezen", "bindwijze", "edition"]

  /** The ordering every search appends before it runs. */
  const OrderBy: string := " ORDER BY " + "genre ASC, " + "auteur_achternaam ASC, " + "reeks_nr ASC"

  /** `'%' + value + '%'`: a pattern matching every text that contains the value. */
  function Like(value: string): (p: string)
    ensures |p| == |value| + 2 && p[0] == '%' && p[|p| - 1] == '%' && p[1..|p| - 1] == value
  {
    "%" + value + "%"
  }

  function LikeClause(c: string): string {
    c + " LIKE ?"
  }

  /** The value a text filter is searched for: `.get(col, '').strip()`. */
  function FilterValue(filters: Form, c: string): string {
    Strip(FormText(filters, c))
  }

  /** The columns, in order, whose filter value is not blank: the ones that get a condition. */
  function Filled(filters: Form, cols: seq<string>): seq<string> {
    if cols == [] then []
    else
      var last := cols[|cols| - 1];
      Filled(filters, cols[..|cols| - 1]) + (if FilterValue(filters, last) != [] then [last] else [])
  }

  /** `Filled` keeps exactly the columns with a non-blank value. */
  lemma {:induction false} FilledMembers(filters: Form, cols: seq<string>)
    ensures forall c :: c in Filled(filters, cols) <==> c in cols && FilterValue(filters, c) != []
  {
    if cols != [] {
      var prefix := cols[..|cols| - 1];
      FilledMembers(filters, prefix);
      assert cols == prefix + [cols[|cols| - 1]];
    }
  }

  /** Running a query on the store, which is not part of this model. */
  type Runner = (string, seq<Param>) -> seq<Book>

  /**
   * `c.execute(query + ORDER BY ..., params)` and `fetchall()`: a query whose
   * values do not match its placeholders raises, the handler catches it, and
   * the search gives no books.
   */
  function Execute(q: Query, run: Runner): seq<Book> {
    if Placeholders(q.sql + OrderBy) != |q.params| then []
    else run(q.sql + OrderBy, q.params)
  }

  // ---------------------------------------------------------------------------
  // models/book.py: `search_books`

  const SearchBase: string := "SELECT * FROM books WHERE 1=1"

  /** One text filter: a non-blank value adds ` AND <col> LIKE ?`, bound to the value as a substring pattern. */
  function TextStep(q: Query, filters: Form, c: string): Query {
    var v := FilterValue(filters, c);
    if v == [] then q
    else Query(q.sql + " AND " + LikeClause(c), q.params + [Pattern(Like(v))])
  }

  /** The text filters of `cols`, in order. */
  function TextQuery(q: Query, filters: Form, cols: seq<string>): Query {
    if cols == [] then q
    else TextStep(TextQuery(q, filters, cols[..|cols| - 1]), filters, cols[|cols| - 1])
  }

  /** Whether a numeric filter is read with `int()` or with `float()`. */
  datatype Kind = WholeNumber | DecimalNumber

  /** The comparison a numeric filter makes. */
  datatype Comparison = Equal | AtLeast | AtMost

  function Operator(op: Comparison): string {
    match op
    case Equal => " = "
    case AtLeast => " >= "
    case AtMost => " <= "
  }

  /** A numeric filter: the form key it is read from, the column it compares and how. */
  datatype NumericFilter = NumericFilter(key: string, column: string, op: Comparison, kind: Kind)

  /** The condition a numeric filter adds: ` AND <column> <op> ?`. */
  function Clause(nf: NumericFilter): string {
    " AND " + nf.column + Operator(nf.op) + "?"
  }

  const SeriesFilter: NumericFilter := NumericFilter("reeks_nr", "reeks_nr", Equal, WholeNumber)
  const MinPriceFilter: NumericFilter := NumericFilter("min_prijs", "prijs", AtLeast, DecimalNumber)
  const MaxPriceFilter: NumericFilter := NumericFilter("max_prijs", "prijs", AtMost, DecimalNumber)
  const MinPagesFilter: NumericFilter := NumericFilter("min_paginas", "paginas", AtLeast, WholeNumber)
  const MaxPagesFilter: NumericFilter := NumericFilter("max_paginas", "paginas", AtMost, WholeNumber)

  /** The numeric filters, in the order `search_books` applies them. */
  const NumericFilters: seq<NumericFilter> := [SeriesFilter, MinPriceFilter, MaxPriceFilter, MinPagesFilter, MaxPagesFilter]

  /** `int(value)` or `float(value)`; `None` is the `ValueError`. */
  function ParseParam(kind: Kind, s: string): Option<Param> {
    match kind
    case WholeNumber => (match ParseInt(s) case Some(n) => Some(Whole(n)) case None => None)
    case DecimalNumber => (match ParseDecimal(s) case Some(x) => Some(Decimal(x)) case None => None)
  }

  /** `key in filters and filters[key].strip()`. */
  predicate Given(filters: Form, key: string) {
    key in filters && !IsBlank(filters[key])
  }

  /** A filter that is given but whose value does not parse. */
  predicate Malformed(filters: Form, nf: NumericFilter) {
    Given(filters, nf.key) && ParseParam(nf.kind, filters[nf.key]).None?
  }

  /** How many of `nfs` are malformed. */
  function MalformedCount(filters: Form, nfs: seq<NumericFilter>): nat {
    if nfs == [] then 0
    else MalformedCount(filters, nfs[..|nfs| - 1]) + (if Malformed(filters, nfs[|nfs| - 1]) then 1 else 0)
  }

  /**
   * One numeric filter as written: the condition is appended before the value
   * is parsed, and the `ValueError` handler only skips the value.
   */
  function NumericStepAsWritten(q: Query, filters: Form, nf: NumericFilter): Query {
    if !Given(filters, nf.key) then q
    else
      var withClause := Query(q.sql + Clause(nf), q.params);
      match ParseParam(nf.kind, filters[nf.key])
      case None => withClause
      case Some(p) => Query(withClause.sql, withClause.params + [p])
  }

  /** One numeric filter, corrected: a value that does not parse is ignored, condition and all. */
  function NumericStep(q: Query, filters: Form, nf: NumericFilter): Query {
    if !Given(filters, nf.key) then q
    else
      match ParseParam(nf.kind, filters[nf.key])
      case None => q
      case Some(p) => Query(q.sql + Clause(nf), q.params + [p])
  }

  function NumericQueryAsWritten(q: Query, filters: Form, nfs: seq<NumericFilter>): Query {
    if nfs == [] then q
    else NumericStepAsWritten(NumericQueryAsWritten(q, filters, nfs[..|nfs| - 1]), filters, nfs[|nfs| - 1])
  }

  function NumericQuery(q: Query, filters: Form, nfs: seq<NumericFilter>): Query {
    if nfs == [] then q
    else NumericStep(NumericQuery(q, filters, nfs[..|nfs| - 1]), filters, nfs[|nfs| - 1])
  }

  /** The query `search_books` builds, as written. */
  function SearchQueryAsWritten(filters: Form): Query {
    NumericQueryAsWritten(TextQuery(Query(SearchBase, []), filters, TextFilters), filters, NumericFilters)
  }

  /** The query `search_books` builds once a malformed number is ignored as its handler intends. */
  function SearchQuery(filters: Form): Query {
    NumericQuery(TextQuery(Query(SearchBase, []), filters, TextFilters), filters, NumericFilters)
  }

  function SearchAsWritten(filters: Form, run: Runner): seq<Book> {
    Execute(SearchQueryAsWritten(filters), run)
  }

  function SearchResult(filters: Form, run: Runner): seq<Book> {
    Execute(SearchQuery(filters), run)
  }


  // ---------------------------------------------------------------------------
  // Placeholders

  lemma {:induction false} PlaceholdersConcat(a: string, b: string)
    ensures Placeholders(a + b) == Placeholders(a) + Placeholders(b)
  {
    if b != [] {
      assert (a + b)[..|a + b| - 1] == a + b[..|b| - 1];
      PlaceholdersConcat(a, b[..|b| - 1]);
    } else {
      assert a + b == a;
    }
  }

  lemma {:induction false} NoPlaceholders(s: string)
    requires '?' !in s
    ensures Placeholders(s) == 0
  {
    if s != [] {
      assert forall x :: x in s[..|s| - 1] ==> x in s;
      NoPlaceholders(s[..|s| - 1]);
    }
  }

  lemma SnakeCaseHasNoPlaceholders(c: string)
    requires SnakeCase(c)
    ensures Placeholders(c) == 0
  {
    assert '?' !in c by {
      forall i | 0 <= i < |c| ensures c[i] != '?' {
      }
    }
    NoPlaceholders(c);
  }

  lemma TextFiltersAreSnakeCase()
    ensures forall c :: c in TextFilters ==> SnakeCase(c)
  {
    AuthorNamesAreSnakeCase();
    DescriptionNamesAreSnakeCase();
    EditionNamesAreSnakeCase();
    SeriesNamesAreSnakeCase();
    StatusNamesAreSnakeCase();
  }

  /** No text column's name holds a placeholder. */
  lemma TextFiltersHaveNoPlaceholders()
    ensures forall c :: c in TextFilters ==> Placeholders(c) == 0
  {
    TextFiltersAreSnakeCase();
    forall c | c in TextFilters ensures Placeholders(c) == 0 {
      SnakeCaseHasNoPlaceholders(c);
    }
  }

  lemma FixedTextsHaveNoPlaceholders()
    ensures Placeholders(" AND ") == 0 && Placeholders(SearchBase) == 0
    ensures Placeholders(RouteBase) == 0 && Placeholders(" WHERE ") == 0
  {
    NoPlaceholders(" AND ");
    NoPlaceholders(SearchBase);
    NoPlaceholders(RouteBase);
    NoPlaceholders(" WHERE ");
  }

  lemma OrderByHasNoPlaceholders()
    ensures Placeholders(OrderBy) == 0
  {
    assert '?' !in " ORDER BY " && '?' !in "genre ASC, " && '?' !in "auteur_achternaam ASC, " && '?' !in "reeks_nr ASC";
    NoPlaceholders(OrderBy);
  }

  lemma OnePlaceholderAtEnd(s: string)
    requires '?' !in s
    ensures Placeholders(s + "?") == 1
  {
    NoPlaceholders(s);
    assert (s + "?")[..|s|] == s;
  }

  /** A numeric condition on a column without a `?` has exactly one placeholder. */
  lemma ClauseHasOnePlaceholder(nf: NumericFilter)
    requires '?' !in nf.column
    ensures Placeholders(Clause(nf)) == 1
  {
    assert '?' !in Operator(nf.op);
    OnePlaceholderAtEnd(" AND " + nf.column + Operator(nf.op));
  }

  /** Every condition a numeric filter adds has exactly one placeholder. */
  lemma NumericClausesHaveOnePlaceholder()
    ensures forall nf :: nf in NumericFilters ==> Placeholders(Clause(nf)) == 1
  {
    forall nf | nf in NumericFilters ensures Placeholders(Clause(nf)) == 1 {
      ClauseHasOnePlaceholder(nf);
    }
  }

  /** Each text condition has exactly one placeholder. */
  lemma LikeClausePlaceholders(c: string)
    requires Placeholders(c) == 0
    ensures Placeholders(" AND " + LikeClause(c)) == 1
    ensures Placeholders(LikeClause(c)) == 1
  {
    FixedTextsHaveNoPlaceholders();
    OnePlaceholderAtEnd(" LIKE ");
    assert " LIKE " + "?" == " LIKE ?";
    PlaceholdersConcat(c, " LIKE ?");
    PlaceholdersConcat(" AND ", LikeClause(c));
  }

  /** A query whose values match its placeholders runs: the ordering adds no placeholder. */
  lemma ExecuteBindable(q: Query, run: Runner)
    requires Bindable(q)
    ensures Execute(q, run) == run(q.sql + OrderBy, q.params)
  {
    OrderByHasNoPlaceholders();
    PlaceholdersConcat(q.sql, OrderBy);
  }

  /** A query with more placeholders than values gives no books. */
  lemma ExecuteUnbound(q: Query, run: Runner)
    requires Placeholders(q.sql) > |q.params|
    ensures Execute(q, run) == []
  {
    OrderByHasNoPlaceholders();
    PlaceholdersConcat(q.sql, OrderBy);
  }

  // ---------------------------------------------------------------------------
  // What `search_books` promises

  /** The text filters keep a query bindable. */
  lemma {:induction false} TextQueryBindable(q: Query, filters: Form, cols: seq<string>)
    requires Bindable(q) && forall c :: c in cols ==> Placeholders(c) == 0
    ensures Bindable(TextQuery(q, filters, cols))
  {
    if cols != [] {
      var prefix := cols[..|cols| - 1];
      assert forall c :: c in prefix ==> c in cols;
      TextQueryBindable(q, filters, prefix);
      var p := TextQuery(q, filters, prefix);
      var c := cols[|cols| - 1];
      if FilterValue(filters, c) != [] {
        LikeClausePlaceholders(c);
        PlaceholdersConcat(p.sql, " AND " + LikeClause(c));
        assert p.sql + " AND " + LikeClause(c) == p.sql + (" AND " + LikeClause(c));
      }
    }
  }

  /** So do the corrected numeric filters. */
  lemma {:induction false} NumericQueryBindable(q: Query, filters: Form, nfs: seq<NumericFilter>)
    requires Bindable(q) && forall nf :: nf in nfs ==> Placeholders(Clause(nf)) == 1
    ensures Bindable(NumericQuery(q, filters, nfs))
  {
    if nfs != [] {
      var prefix := nfs[..|nfs| - 1];
      assert forall nf :: nf in prefix ==> nf in nfs;
      NumericQueryBindable(q, filters, prefix);
      var p := NumericQuery(q, filters, prefix);
      PlaceholdersConcat(p.sql, Clause(nfs[|nfs| - 1]));
    }
  }

  /**
   * As written, each malformed numeric filter leaves one placeholder more
   * than there are values.
   */
  lemma {:induction false} NumericQueryAsWrittenSurplus(q: Query, filters: Form, nfs: seq<NumericFilter>)
    requires forall nf :: nf in nfs ==> Placeholders(Clause(nf)) == 1
    ensures Placeholders(NumericQueryAsWritten(q, filters, nfs).sql) - |NumericQueryAsWritten(q, filters, nfs).params|
         == Placeholders(q.sql) - |q.params| + MalformedCount(filters, nfs)
  {
    if nfs != [] {
      var prefix := nfs[..|nfs| - 1];
      assert forall nf :: nf in prefix ==> nf in nfs;
      NumericQueryAsWrittenSurplus(q, filters, prefix);
      var p := NumericQueryAsWritten(q, filters, prefix);
      PlaceholdersConcat(p.sql, Clause(nfs[|nfs| - 1]));
    }
  }

  /** Without malformed filters the two versions build the same query. */
  lemma {:induction false} NumericQueriesAgree(q: Query, filters: Form, nfs: seq<NumericFilter>)
    requires MalformedCount(filters, nfs) == 0
    ensures NumericQueryAsWritten(q, filters, nfs) == NumericQuery(q, filters, nfs)
  {
    if nfs != [] {
      NumericQueriesAgree(q, filters, nfs[..|nfs| - 1]);
    }
  }

  /** The text part of `search_books` always binds. */
  lemma TextPartBindable(filters: Form)
    ensures Bindable(TextQuery(Query(SearchBase, []), filters, TextFilters))
  {
    FixedTextsHaveNoPlaceholders();
    TextFiltersHaveNoPlaceholders();
    TextQueryBindable(Query(SearchBase, []), filters, TextFilters);
  }

  /** The corrected query supplies one value per placeholder. */
  lemma SearchQueryBindable(filters: Form)
    ensures Bindable(SearchQuery(filters))
  {
    TextPartBindable(filters);
    NumericClausesHaveOnePlaceholder();
    NumericQueryBindable(TextQuery(Query(SearchBase, []), filters, TextFilters), filters, NumericFilters);
  }

  /** So the corrected search always runs its query. */
  lemma SearchAlwaysRuns(filters: Form, run: Runner)
    ensures SearchResult(filters, run) == run(SearchQuery(filters).sql + OrderBy, SearchQuery(filters).params)
  {
    SearchQueryBindable(filters);
    ExecuteBindable(SearchQuery(filters), run);
  }

  /**
   * As written, a malformed numeric filter makes the query unbindable, and
   * the search returns no books whatever the store holds.
   */
  lemma MalformedFilterEmptiesSearch(filters: Form, run: Runner)
    requires MalformedCount(filters, NumericFilters) > 0
    ensures SearchAsWritten(filters, run) == []
  {
    TextPartBindable(filters);
    NumericClausesHaveOnePlaceholder();
    NumericQueryAsWrittenSurplus(TextQuery(Query(SearchBase, []), filters, TextFilters), filters, NumericFilters);
    ExecuteUnbound(SearchQueryAsWritten(filters), run);
  }

  /** Without a malformed numeric filter the written search is the corrected one. */
  lemma WellFormedFiltersAgree(filters: Form, run: Runner)
    requires MalformedCount(filters, NumericFilters) == 0
    ensures SearchAsWritten(filters, run) == SearchResult(filters, run)
  {
    NumericQueriesAgree(TextQuery(Query(SearchBase, []), filters, TextFilters), filters, NumericFilters);
  }

  lemma {:induction false} MalformedCountPositive(filters: Form, nfs: seq<NumericFilter>, i: nat)
    requires i < |nfs| && Malformed(filters, nfs[i])
    ensures MalformedCount(filters, nfs) > 0
  {
    if i < |nfs| - 1 {
      MalformedCountPositive(filters, nfs[..|nfs| - 1], i);
    }
  }

  /** `tien` is not a price. */
  lemma TienIsMalformed(filters: Form)
    requires filters == map[MinPriceFilter.key := "tien"]
    ensures Malformed(filters, MinPriceFilter)
  {
    assert !IsSpace('t') && Strip("tien") != [];
    ParseDecimalRejects("tien", 0);
  }

  /** A minimum price of `tien`: the written search finds nothing. */
  lemma WordAsMinimumPrice(run: Runner)
    ensures SearchAsWritten(map["min_prijs" := "tien"], run) == []
  {
    var filters := map[MinPriceFilter.key := "tien"];
    TienIsMalformed(filters);
    MalformedCountPositive(filters, NumericFilters, 1);
    MalformedFilterEmptiesSearch(filters, run);
  }

  /** The corrected search ignores the word and runs the query without conditions. */
  lemma WordAsMinimumPriceIgnored(run: Runner)
    ensures SearchResult(map["min_prijs" := "tien"], run) == run(SearchBase + OrderBy, [])
  {
    var filters := map[MinPriceFilter.key := "tien"];
    TienIsMalformed(filters);
    NothingElseGiven(filters);
    SearchAlwaysRuns(filters, run);
  }

  /** Only a malformed minimum price is filled in: the corrected query has no condition at all. */
  lemma NothingElseGiven(filters: Form)
    requires filters.Keys == {MinPriceFilter.key} && Malformed(filters, MinPriceFilter)
    ensures SearchQuery(filters) == Query(SearchBase, [])
  {
    assert TextQuery(Query(SearchBase, []), filters, TextFilters) == Query(SearchBase, []) by {
      NoTextFilterGiven(filters);
    }
    FiveNumericFilters(Query(SearchBase, []), filters);
  }

  lemma NoTextFilterGiven(filters: Form)
    requires filters.Keys == {MinPriceFilter.key}
    ensures TextQuery(Query(SearchBase, []), filters, TextFilters) == Query(SearchBase, [])
  {
    assert MinPriceFilter.key !in TextFilters;
    assert Strip("") == [];
    forall c | c in TextFilters ensures FilterValue(filters, c) == [] {
      assert c !in filters;
    }
    TextQuerySkipsBlanks(Query(SearchBase, []), filters, TextFilters);
  }

  /** Text filters that are all blank add nothing. */
  lemma {:induction false} TextQuerySkipsBlanks(q: Query, filters: Form, cols: seq<string>)
    requires forall c :: c in cols ==> FilterValue(filters, c) == []
    ensures TextQuery(q, filters, cols) == q
  {
    if cols != [] {
      assert forall c :: c in cols[..|cols| - 1] ==> c in cols;
      TextQuerySkipsBlanks(q, filters, cols[..|cols| - 1]);
    }
  }

  lemma NumericQueryAppend(q: Query, filters: Form, nfs: seq<NumericFilter>, nf: NumericFilter)
    ensures NumericQuery(q, filters, nfs + [nf]) == NumericStep(NumericQuery(q, filters, nfs), filters, nf)
  {
    assert (nfs + [nf])[..|nfs|] == nfs;
  }

  /** The numeric part is the five filters applied in their order. */
  lemma FiveNumericFilters(q: Query, filters: Form)
    ensures NumericQuery(q, filters, NumericFilters)
         == NumericStep(NumericStep(NumericStep(NumericStep(NumericStep(q, filters, SeriesFilter),
              filters, MinPriceFilter), filters, MaxPriceFilter), filters, MinPagesFilter), filters, MaxPagesFilter)
  {
    var one := [SeriesFilter];
    var two := one + [MinPriceFilter];
    var three := two + [MaxPriceFilter];
    var four := three + [MinPagesFilter];
    NumericQueryAppend(q, filters, [], SeriesFilter);
    assert [] + [SeriesFilter] == one;
    NumericQueryAppend(q, filters, one, MinPriceFilter);
    NumericQueryAppend(q, filters, two, MaxPriceFilter);
    NumericQueryAppend(q, filters, three, MinPagesFilter);
    NumericQueryAppend(q, filters, four, MaxPagesFilter);
    assert four + [MaxPagesFilter] == NumericFilters;
  }

  // ---------------------------------------------------------------------------
  // app.py: the search branch of the index route and the `/search` route

  const RouteBase: string := "SELECT * FROM books"

  /** Python's `sep.join(parts)`. */
  function Join(sep: string, parts: seq<string>): string {
    if parts == [] then ""
    else if |parts| == 1 then parts[0]
    else Join(sep, parts[..|parts| - 1]) + sep + parts[|parts| - 1]
  }

  /** The `where_clauses` and `params` the loop over the text columns collects. */
  function RouteFilters(filters: Form, cols: seq<string>): (seq<string>, seq<Param>) {
    if cols == [] then ([], [])
    else
      var before := RouteFilters(filters, cols[..|cols| - 1]);
      var c := cols[|cols| - 1];
      var v := FilterValue(filters, c);
      if v == [] then before
      else (before.0 + [LikeClause(c)], before.1 + [Pattern(Like(v))])
  }

  /** `WHERE` and the conditions joined with ` AND `, or nothing when there is no condition. */
  function Where(clauses: seq<string>): string {
    if clauses == [] then "" else " WHERE " + Join(" AND ", clauses)
  }

  function RouteQuery(filters: Form): Query {
    Query(RouteBase + Where(RouteFilters(filters, TextFilters).0), RouteFilters(filters, TextFilters).1)
  }

  /** The `filters` the index route hands back to the page: the stripped non-blank values. */
  function RouteShown(filters: Form, cols: seq<string>): Form {
    if cols == [] then map[]
    else
      var shown := RouteShown(filters, cols[..|cols| - 1]);
      var c := cols[|cols| - 1];
      var v := FilterValue(filters, c);
      if v == [] then shown else shown[c := v]
  }

  function RouteSearchResult(filters: Form, run: Runner): seq<Book> {
    Execute(RouteQuery(filters), run)
  }

  /**
   * Each non-blank filter contributes exactly one condition and one value, in
   * column order: `<col> LIKE ?` bound to `%<stripped value>%`.
   */
  lemma {:induction false} RouteFiltersAreTheFilledColumns(filters: Form, cols: seq<string>)
    ensures |RouteFilters(filters, cols).0| == |Filled(filters, cols)| == |RouteFilters(filters, cols).1|
    ensures forall i :: 0 <= i < |Filled(filters, cols)| ==>
              RouteFilters(filters, cols).0[i] == LikeClause(Filled(filters, cols)[i])
    ensures forall i :: 0 <= i < |Filled(filters, cols)| ==>
              RouteFilters(filters, cols).1[i] == Pattern(Like(FilterValue(filters, Filled(filters, cols)[i])))
  {
    if cols != [] {
      var prefix := cols[..|cols| - 1];
      RouteFiltersAreTheFilledColumns(filters, prefix);
      RouteFiltersStep(filters, cols);
      FilledStep(filters, cols);
    }
  }

  /** The last column adds its condition, value and place in `Filled` together, or none of them. */
  lemma RouteFiltersStep(filters: Form, cols: seq<string>)
    requires cols != []
    ensures var c := cols[|cols| - 1];
            var before := RouteFilters(filters, cols[..|cols| - 1]);
            FilterValue(filters, c) != [] ==>
              RouteFilters(filters, cols) == (before.0 + [LikeClause(c)], before.1 + [Pattern(Like(FilterValue(filters, c)))])
    ensures FilterValue(filters, cols[|cols| - 1]) == [] ==> RouteFilters(filters, cols) == RouteFilters(filters, cols[..|cols| - 1])
  {
  }

  lemma FilledStep(filters: Form, cols: seq<string>)
    requires cols != []
    ensures var c := cols[|cols| - 1];
            Filled(filters, cols) == Filled(filters, cols[..|cols| - 1]) + if FilterValue(filters, c) != [] then [c] else []
  {
  }

  /** No `WHERE` exactly when every text filter is blank. */
  lemma RouteWithoutConditions(filters: Form, cols: seq<string>)
    ensures RouteFilters(filters, cols).0 == [] <==> forall c :: c in cols ==> FilterValue(filters, c) == []
  {
    RouteFiltersAreTheFilledColumns(filters, cols);
    FilledMembers(filters, cols);
    if Filled(filters, cols) != [] {
      assert Filled(filters, cols)[0] in Filled(filters, cols);
    }
  }

  /** The index route shows exactly the non-blank filters, stripped. */
  lemma {:induction false} RouteShownRules(filters: Form, cols: seq<string>)
    ensures forall c :: c in RouteShown(filters, cols) <==> c in cols && FilterValue(filters, c) != []
    ensures forall c :: c in RouteShown(filters, cols) ==> RouteShown(filters, cols)[c] == FilterValue(filters, c)
  {
    if cols != [] {
      RouteShownRules(filters, cols[..|cols| - 1]);
      forall c | c in cols[..|cols| - 1] ensures c in cols {
      }
      forall c | c in cols ensures c in cols[..|cols| - 1] || c == cols[|cols| - 1] {
        var i :| 0 <= i < |cols| && cols[i] == c;
        if i < |cols| - 1 {
          assert cols[..|cols| - 1][i] == c;
        }
      }
    }
  }

  /** Joining conditions that each hold one placeholder gives one placeholder per condition. */
  lemma {:induction false} JoinPlaceholders(parts: seq<string>)
    requires forall i :: 0 <= i < |parts| ==> Placeholders(parts[i]) == 1
    ensures Placeholders(Join(" AND ", parts)) == |parts|
  {
    if |parts| > 1 {
      var prefix := parts[..|parts| - 1];
      JoinPlaceholders(prefix);
      FixedTextsHaveNoPlaceholders();
      PlaceholdersConcat(Join(" AND ", prefix), " AND ");
      PlaceholdersConcat(Join(" AND ", prefix) + " AND ", parts[|parts| - 1]);
    } else if |parts| == 0 {
      NoPlaceholders("");
    }
  }

  /** Each condition the route collects holds one placeholder. */
  lemma {:induction false} RouteClausesPlaceholders(filters: Form, cols: seq<string>)
    requires forall c :: c in cols ==> Placeholders(c) == 0
    ensures forall i :: 0 <= i < |RouteFilters(filters, cols).0| ==> Placeholders(RouteFilters(filters, cols).0[i]) == 1
  {
    if cols != [] {
      var prefix := cols[..|cols| - 1];
      assert forall c :: c in prefix ==> c in cols;
      RouteClausesPlaceholders(filters, prefix);
      var c := cols[|cols| - 1];
      RouteFiltersStep(filters, cols);
      if FilterValue(filters, c) != [] {
        assert Placeholders(LikeClause(c)) == 1 by {
          LikeClausePlaceholders(c);
        }
        AppendOnePlaceholder(RouteFilters(filters, prefix).0, LikeClause(c));
      }
    }
  }

  lemma AppendOnePlaceholder(parts: seq<string>, last: string)
    requires forall i :: 0 <= i < |parts| ==> Placeholders(parts[i]) == 1
    requires Placeholders(last) == 1
    ensures forall i :: 0 <= i < |parts + [last]| ==> Placeholders((parts + [last])[i]) == 1
  {
  }

  /** The route's query text has one placeholder per condition. */
  lemma WherePlaceholders(clauses: seq<string>)
    requires forall i :: 0 <= i < |clauses| ==> Placeholders(clauses[i]) == 1
    ensures Placeholders(RouteBase + Where(clauses)) == |clauses|
  {
    FixedTextsHaveNoPlaceholders();
    if clauses == [] {
      assert RouteBase + Where(clauses) == RouteBase;
    } else {
      JoinPlaceholders(clauses);
      PlaceholdersConcat(" WHERE ", Join(" AND ", clauses));
    }
    PlaceholdersConcat(RouteBase, Where(clauses));
  }

  /** The route query binds, whatever the filters. */
  lemma RouteQueryBindable(filters: Form)
    ensures Bindable(RouteQuery(filters))
  {
    TextFiltersHaveNoPlaceholders();
    RouteClausesPlaceholders(filters, TextFilters);
    RouteFiltersAreTheFilledColumns(filters, TextFilters);
    WherePlaceholders(RouteFilters(filters, TextFilters).0);
  }

  /** So the route search always runs its query. */
  lemma RouteSearchAlwaysRuns(filters: Form, run: Runner)
    ensures RouteSearchResult(filters, run) == run(RouteQuery(filters).sql + OrderBy, RouteQuery(filters).params)
  {
    RouteQueryBindable(filters);
    ExecuteBindable(RouteQuery(filters), run);
  }

  /** ` AND ` before each condition is ` AND ` before their join. */
  function AndEach(clauses: seq<string>): string {
    if clauses == [] then "" else AndEach(clauses[..|clauses| - 1]) + " AND " + clauses[|clauses| - 1]
  }

  lemma AndEachAppend(clauses: seq<string>, c: string)
    ensures AndEach(clauses + [c]) == AndEach(clauses) + " AND " + c
  {
    assert (clauses + [c])[..|clauses|] == clauses;
  }

  lemma {:induction false} AndEachIsJoin(clauses: seq<string>)
    requires clauses != []
    ensures AndEach(clauses) == " AND " + Join(" AND ", clauses)
  {
    if |clauses| > 1 {
      var prefix, last := clauses[..|clauses| - 1], clauses[|clauses| - 1];
      AndEachIsJoin(prefix);
      JoinStep(" AND ", clauses);
      Associative(" AND ", Join(" AND ", prefix), " AND ", last);
    } else {
      assert clauses[..0] == [];
    }
  }

  lemma JoinStep(sep: string, parts: seq<string>)
    requires |parts| > 1
    ensures Join(sep, parts) == Join(sep, parts[..|parts| - 1]) + sep + parts[|parts| - 1]
  {
  }

  lemma Associative(a: string, b: string, c: string, d: string)
    ensures a + b + c + d == a + (b + c + d)
  {
  }

  /** The text part of `search_books` collects exactly the conditions and values of the route. */
  lemma {:induction false} TextQueryIsRouteFilters(base: string, filters: Form, cols: seq<string>)
    ensures TextQuery(Query(base, []), filters, cols)
         == Query(base + AndEach(RouteFilters(filters, cols).0), RouteFilters(filters, cols).1)
  {
    if cols == [] {
      assert base + "" == base;
    } else {
      var prefix := cols[..|cols| - 1];
      TextQueryIsRouteFilters(base, filters, prefix);
      RouteFiltersStep(filters, cols);
      var clauses := RouteFilters(filters, prefix).0;
      var c := cols[|cols| - 1];
      if FilterValue(filters, c) != [] {
        AndEachAppend(clauses, LikeClause(c));
        Associative(base, AndEach(clauses), " AND ", LikeClause(c));
      }
    }
  }

  /**
   * `search_books` and the app.py routes search the same text filters: the
   * same values, bound in the same order, and the same conditions after
   * `WHERE 1=1`.
   */
  lemma BuildersAgree(filters: Form)
    ensures TextQuery(Query(SearchBase, []), filters, TextFilters).params == RouteFilters(filters, TextFilters).1
    ensures RouteFilters(filters, TextFilters).0 == [] ==>
              TextQuery(Query(SearchBase, []), filters, TextFilters).sql == SearchBase
    ensures RouteFilters(filters, TextFilters).0 != [] ==>
              TextQuery(Query(SearchBase, []), filters, TextFilters).sql
              == SearchBase + " AND " + Join(" AND ", RouteFilters(filters, TextFilters).0)
  {
    var clauses := RouteFilters(filters, TextFilters).0;
    TextQueryIsRouteFilters(SearchBase, filters, TextFilters);
    if clauses != [] {
      AndEachIsJoin(clauses);
      assert SearchBase + " AND " + Join(" AND ", clauses) == SearchBase + (" AND " + Join(" AND ", clauses));
    } else {
      assert SearchBase + "" == SearchBase;
    }
  }

  /**
   * `search_books` of models/book.py, with a malformed number ignored as its
   * handler intends: the text filters in column order, then the numeric ones,
   * then the query is run.
   */
  method SearchBooks(filters: Form, run: Runner) returns (books: seq<Book>)
    ensures books == SearchResult(filters, run)
  {
    var q := AddTextFilters(Query(SearchBase, []), filters, TextFilters);
    ghost var text := q;
    q := AddNumericFilter(q, filters, SeriesFilter);
    q := AddNumericFilter(q, filters, MinPriceFilter);
    q := AddNumericFilter(q, filters, MaxPriceFilter);
    q := AddNumericFilter(q, filters, MinPagesFilter);
    q := AddNumericFilter(q, filters, MaxPagesFilter);
    FiveNumericFilters(text, filters);
    books := Run(q, run);
  }

  /** The loop over the text columns of `search_books`. */
  method AddTextFilters(q0: Query, filters: Form, cols: seq<string>) returns (q: Query)
    ensures q == TextQuery(q0, filters, cols)
  {
    q := q0;
    for k := 0 to |cols|
      invariant q == TextQuery(q0, filters, cols[..k])
    {
      var c := cols[k];
      var value := Strip(FormText(filters, c));
      if value != [] {
        q := Query(q.sql + " AND " + LikeClause(c), q.params + [Pattern(Like(value))]);
      }
      assert cols[..k + 1][..k] == cols[..k];
    }
    assert cols[..|cols|] == cols;
  }

  /**
   * One of the five numeric filter blocks of `search_books`, corrected to
   * append its clause only once the value converts (as written, see
   * `NumericStepAsWritten`).
   */
  method AddNumericFilter(q: Query, filters: Form, nf: NumericFilter) returns (r: Query)
    ensures r == NumericStep(q, filters, nf)
  {
    r := q;
    if nf.key in filters && Strip(filters[nf.key]) != [] {
      var value := ParseParam(nf.kind, filters[nf.key]);
      if value.Some? {
        r := Query(q.sql + Clause(nf), q.params + [value.value]);
      }
    }
  }

  /** `c.execute(...)` inside the handler that turns a failure into no books. */
  method Run(q: Query, run: Runner) returns (books: seq<Book>)
    ensures books == Execute(q, run)
  {
    var sql := q.sql + OrderBy;
    if Placeholders(sql) != |q.params| {
      return [];
    }
    books := run(sql, q.params);
  }

  /**
   * The search of the index route and of `/search` in app.py: the text
   * filters collected in column order and joined after `WHERE`.
   */
  method RouteSearch(filters: Form, run: Runner) returns (books: seq<Book>, shown: Form)
    ensures books == RouteSearchResult(filters, run)
    ensures shown == RouteShown(filters, TextFilters)
  {
    var clauses, params;
    clauses, params, shown := CollectConditions(filters, TextFilters);
    var sql := RouteBase;
    if clauses != [] {
      sql := sql + " WHERE " + Join(" AND ", clauses);
    } else {
      assert sql == RouteBase + "";
    }
    assert sql == RouteBase + Where(RouteFilters(filters, TextFilters).0);
    books := Run(Query(sql, params), run);
  }

  /** The loop over the text columns of the app.py search: conditions, values and the filters shown. */
  method CollectConditions(filters: Form, cols: seq<string>) returns (clauses: seq<string>, params: seq<Param>, shown: Form)
    ensures clauses == RouteFilters(filters, cols).0 && params == RouteFilters(filters, cols).1
    ensures shown == RouteShown(filters, cols)
  {
    clauses, params, shown := [], [], map[];
    for k := 0 to |cols|
      invariant clauses == RouteFilters(filters, cols[..k]).0
      invariant params == RouteFilters(filters, cols[..k]).1
      invariant shown == RouteShown(filters, cols[..k])
    {
      var c := cols[k];
      RouteShownStep(filters, cols, k);
      var value := Strip(FormText(filters, c));
      if value != [] {
        shown := shown[c := value];
        clauses := clauses + [LikeClause(c)];
        params := params + [Pattern(Like(value))];
      }
      assert cols[..k + 1][..k] == cols[..k];
    }
    assert cols[..|cols|] == cols;
  }

  lemma RouteShownStep(filters: Form, cols: seq<string>, k: nat)
    requires k < |cols|
    ensures FilterValue(filters, cols[k]) == [] ==> RouteShown(filters, cols[..k + 1]) == RouteShown(filters, cols[..k])
    ensures FilterValue(filters, cols[k]) != [] ==>
              RouteShown(filters, cols[..k + 1]) == RouteShown(filters, cols[..k])[cols[k] := FilterValue(filters, cols[k])]
  {
    assert cols[..k + 1][..k] == cols[..k];
  }
}
