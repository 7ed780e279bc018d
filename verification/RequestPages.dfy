/** What the page query returns on a whole table (cli/web_index.go:661-693). */
module RequestPages {
  import opened Sql
  import opened RequestQuery

  /** ORDER BY timestamp, id in either direction; ids are unique, so this is a total order. */
  predicate Before(a: Row, b: Row, ascending: bool) {
    if ascending then a.timestamp < b.timestamp || (a.timestamp == b.timestamp && a.id < b.id)
    else a.timestamp > b.timestamp || (a.timestamp == b.timestamp && a.id > b.id)
  }

  predicate Sorted(rows: seq<Row>, ascending: bool) {
    forall i, j :: 0 <= i < j < |rows| ==> Before(rows[i], rows[j], ascending)
  }

  predicate UniqueIds(rows: seq<Row>) {
    forall i, j :: 0 <= i < j < |rows| ==> rows[i].id != rows[j].id
  }

  function Insert(rows: seq<Row>, r: Row, ascending: bool): seq<Row> {
    if rows == [] || Before(r, rows[0], ascending) then [r] + rows
    else [rows[0]] + Insert(rows[1..], r, ascending)
  }

  /** The order the database puts its rows in. */
  function Sort(rows: seq<Row>, ascending: bool): seq<Row> {
    if rows == [] then [] else Insert(Sort(rows[1..], ascending), rows[0], ascending)
  }

  lemma {:induction false} InsertCounts(rows: seq<Row>, r: Row, ascending: bool)
    ensures multiset(Insert(rows, r, ascending)) == multiset(rows) + multiset{r}
    decreases |rows|
  {
    hide Before;
    if rows != [] && !Before(r, rows[0], ascending) {
      assert rows == [rows[0]] + rows[1..];
      InsertCounts(rows[1..], r, ascending);
    }
  }

  lemma InsertKeeps(rows: seq<Row>, r: Row, ascending: bool)
    ensures multiset(Insert(rows, r, ascending)) == multiset(rows) + multiset{r}
    ensures forall o :: o in Insert(rows, r, ascending) <==> o == r || o in rows
  {
    hide Insert;
    InsertCounts(rows, r, ascending);
    assert forall o :: o in rows <==> o in multiset(rows);
    assert forall o :: o in Insert(rows, r, ascending) <==> o in multiset(Insert(rows, r, ascending));
  }

  lemma {:induction false} InsertSorts(rows: seq<Row>, r: Row, ascending: bool)
    requires Sorted(rows, ascending) && forall o | o in rows :: o.id != r.id
    ensures Sorted(Insert(rows, r, ascending), ascending)
    decreases |rows|
  {
    if rows == [] {
    } else if Before(r, rows[0], ascending) {
      assert forall i | 0 <= i < |rows| :: Before(r, rows[i], ascending);
    } else {
      assert rows[0] in rows;
      InsertSorts(rows[1..], r, ascending);
      InsertKeeps(rows[1..], r, ascending);
      var rest := Insert(rows[1..], r, ascending);
      forall i | 0 <= i < |rest| ensures Before(rows[0], rest[i], ascending) {
        assert rest[i] in rest;
        if rest[i] != r {
          var j :| 0 <= j < |rows[1..]| && rows[1..][j] == rest[i];
          assert rows[j + 1] == rest[i];
        }
      }
    }
  }

  /** The result is sorted and has the same rows, each as often. */
  lemma {:induction false} SortSorts(rows: seq<Row>, ascending: bool)
    requires UniqueIds(rows)
    ensures Sorted(Sort(rows, ascending), ascending) && multiset(Sort(rows, ascending)) == multiset(rows)
    ensures |Sort(rows, ascending)| == |rows|
    ensures forall o :: o in Sort(rows, ascending) <==> o in rows
    decreases |rows|
  {
    if rows != [] {
      hide Before;
      SortSorts(rows[1..], ascending);
      assert rows == [rows[0]] + rows[1..];
      forall o | o in rows[1..] ensures o.id != rows[0].id {
        var i :| 0 <= i < |rows[1..]| && rows[1..][i] == o;
        assert rows[i + 1] == o;
      }
      hide Sorted;
      InsertSorts(Sort(rows[1..], ascending), rows[0], ascending);
      InsertKeeps(Sort(rows[1..], ascending), rows[0], ascending);
      assert |multiset(Sort(rows, ascending))| == |multiset(rows)|;
    }
  }

  /** There is only one such order, so queries that are sent one after the other agree on it. */
  lemma {:induction false} SortedIsUnique(a: seq<Row>, b: seq<Row>, ascending: bool)
    requires Sorted(a, ascending) && Sorted(b, ascending) && forall o :: o in a <==> o in b
    ensures a == b
    decreases |a|
  {
    assert b == [] || b[0] in b;
    if a != [] {
      assert a[0] in b && (b != [] ==> b[0] in a);
      assert a[0] == b[0];
      forall o ensures o in a[1..] <==> o in b[1..] {
        SortedTail(a, o, ascending);
        SortedTail(b, o, ascending);
      }
      SortedIsUnique(a[1..], b[1..], ascending);
      assert a == [a[0]] + a[1..] && b == [b[0]] + b[1..];
    }
  }

  function Reversed(rows: seq<Row>): seq<Row> {
    seq(|rows|, i requires 0 <= i < |rows| => rows[|rows| - 1 - i])
  }

  lemma ReversedSorts(rows: seq<Row>, ascending: bool)
    requires Sorted(rows, ascending)
    ensures Sorted(Reversed(rows), !ascending)
    ensures forall o :: o in Reversed(rows) <==> o in rows
  {
    var back := Reversed(rows);
    forall o | o in rows ensures o in back {
      var i :| 0 <= i < |rows| && rows[i] == o;
      assert back[|rows| - 1 - i] == o;
    }
  }

  /** Descending order is ascending order read backwards. */
  lemma DescendingIsReversed(rows: seq<Row>)
    requires UniqueIds(rows)
    ensures Sort(rows, false) == Reversed(Sort(rows, true))
  {
    SortSorts(rows, true);
    SortSorts(rows, false);
    ReversedSorts(Sort(rows, true), true);
    hide Sort, Reversed, Before;
    SortedIsUnique(Sort(rows, false), Reversed(Sort(rows, true)), false);
  }

  lemma SortedTail(a: seq<Row>, o: Row, ascending: bool)
    requires a != [] && Sorted(a, ascending)
    ensures o in a[1..] <==> o in a && o != a[0]
  {
    if o in a[1..] {
      var i :| 0 <= i < |a[1..]| && a[1..][i] == o;
      assert a[i + 1] == o && Before(a[0], a[i + 1], ascending);
    }
    if o in a && o != a[0] {
      var i :| 0 <= i < |a| && a[i] == o;
      assert a[1..][i - 1] == o;
    }
  }

  // ----- filter, order, slice -----

  function Matching(f: Filter, table: seq<Row>, search: Search): seq<Row> {
    if table == [] then []
    else (if Accepts(f, table[0], search) then [table[0]] else []) + Matching(f, table[1..], search)
  }

  /** The whole list that the filter asks for. */
  function Listing(f: Filter, table: seq<Row>, search: Search): seq<Row> {
    Sort(Matching(f, table, search), f.ascending)
  }

  function Slice(rows: seq<Row>, limit: nat, offset: nat): seq<Row> {
    if offset >= |rows| then []
    else if offset + limit <= |rows| then rows[offset..offset + limit]
    else rows[offset..]
  }

  /** The rows a page statement keeps. */
  function Kept(tokens: seq<Token>, args: seq<Value>, table: seq<Row>, search: Search): seq<Row> {
    if table == [] then []
    else
      var s := EvalPage(tokens, args, table[0], search);
      (if s.Selected? && s.keep then [table[0]] else []) + Kept(tokens, args, table[1..], search)
  }

  /** Running a page statement: keep, order, cut. */
  function RunPage(tokens: seq<Token>, args: seq<Value>, table: seq<Row>, search: Search): seq<Row> {
    if table == [] then []
    else
      var s := EvalPage(tokens, args, table[0], search);
      if s.Selected? && s.limit >= 0 && s.offset >= 0
        then Slice(Sort(Kept(tokens, args, table, search), s.ascending), s.limit, s.offset)
      else []
  }

  lemma {:induction false} KeptMatches(f: Filter, table: seq<Row>, search: Search)
    requires IsValid(f)
    ensures Kept(Compile(f).pageTokens, Compile(f).pageArgs, table, search) == Matching(f, table, search)
    ensures Total(Compile(f).countTokens, Compile(f).countArgs, table, search) == |Matching(f, table, search)|
    decreases |table|
  {
    hide EvalPage, EvalOr, Compile, Accepts, Focused, IsValid;
    if table != [] {
      PageMeansFilter(f, table[0], search);
      CountMeansFilter(f, table[0], search);
      KeptMatches(f, table[1..], search);
    }
  }

  /** The page query returns the asked-for slice of the list. */
  lemma PageIsSlice(f: Filter, table: seq<Row>, search: Search)
    requires IsValid(f)
    ensures RunPage(Compile(f).pageTokens, Compile(f).pageArgs, table, search)
      == Slice(Listing(f, table, search), EffectivePageSize(f), PageOffset(f))
  {
    hide EvalPage, EvalOr, Compile, Accepts, Focused, IsValid, Sort, Kept, Matching, EffectivePage, EffectivePageSize;
    KeptMatches(f, table, search);
    if table != [] {
      PageMeansFilter(f, table[0], search);
    } else {
      SortNothing(f.ascending);
      assert Matching(f, [], search) == [] by {
        MatchNothing(f, search);
      }
    }
  }

  /** The page that a request for page k returns. */
  function PageOf(f: Filter, k: int, table: seq<Row>, search: Search): seq<Row> {
    var query := Compile(f.(page := k));
    if query.Rejected? then [] else RunPage(query.pageTokens, query.pageArgs, table, search)
  }

  function FirstPages(f: Filter, n: nat, table: seq<Row>, search: Search): seq<Row> {
    if n == 0 then [] else FirstPages(f, n - 1, table, search) + PageOf(f, n, table, search)
  }

  /** The page number and the page size do not change what is listed. */
  lemma ListingIgnoresPages(f: Filter, g: Filter, table: seq<Row>, search: Search)
    requires g == f.(page := g.page, pageSize := g.pageSize)
    ensures IsValid(g) == IsValid(f) && Listing(g, table, search) == Listing(f, table, search)
  {
    MatchingIgnoresPages(f, g, table, search);
    hide Sort, Matching;
  }

  lemma {:induction false} MatchingIgnoresPages(f: Filter, g: Filter, table: seq<Row>, search: Search)
    requires g == f.(page := g.page, pageSize := g.pageSize)
    ensures Matching(g, table, search) == Matching(f, table, search)
    decreases |table|
  {
    if table != [] {
      MatchingIgnoresPages(f, g, table[1..], search);
    }
  }

  /** Up to 500 rows a page is as long as was asked for, and page k lies behind the k - 1 pages before it. */
  lemma PageOfSize(f: Filter, k: nat, table: seq<Row>, search: Search)
    requires IsValid(f) && 1 <= f.pageSize <= 500 && k >= 1
    ensures PageOf(f, k, table, search) == Slice(Listing(f, table, search), f.pageSize, (k - 1) * f.pageSize)
  {
    var g := f.(page := k);
    assert EffectivePageSize(g) == f.pageSize && PageOffset(g) == (k - 1) * f.pageSize;
    hide IsValid, Listing, RunPage, EffectivePageSize, PageOffset, Slice;
    ListingIgnoresPages(f, g, table, search);
    PageIsSlice(g, table, search);
    NotRejected(g);
    hide Compile;
  }

  lemma NotRejected(f: Filter)
    requires IsValid(f)
    ensures !Compile(f).Rejected?
  {
    hide IsValid;
  }

  lemma NextSlice(list: seq<Row>, size: nat, k: nat)
    ensures Slice(list, k * size, 0) + Slice(list, size, k * size) == Slice(list, (k + 1) * size, 0)
  {
    assert (k + 1) * size == k * size + size;
  }

  /** Put one behind the other, the pages are the whole list, cut off after so many pages. */
  lemma {:induction false} PagesAreTheList(f: Filter, n: nat, table: seq<Row>, search: Search)
    requires IsValid(f) && 1 <= f.pageSize <= 500
    ensures FirstPages(f, n, table, search) == Slice(Listing(f, table, search), n * f.pageSize, 0)
    decreases n
  {
    hide IsValid, Listing, PageOf;
    if n > 0 {
      hide Slice;
      PagesAreTheList(f, n - 1, table, search);
      PageOfSize(f, n, table, search);
      NextSlice(Listing(f, table, search), f.pageSize, n - 1);
    }
  }

  /** Without a usable page number or size, or beyond 500 rows, the request is for the first page, 100 rows,
      or 500. */
  lemma PageDefaults(f: Filter)
    ensures f.page < 1 ==> Compile(f) == Compile(f.(page := 1))
    ensures f.pageSize < 1 ==> Compile(f) == Compile(f.(pageSize := 100))
    ensures f.pageSize > 500 ==> Compile(f) == Compile(f.(pageSize := 500))
  {
    hide Join, FlagTokens, FocusTokens, ArgsOfAll, WhereParts, WhereArgs, ModeClauses, ValidSessionId,
      FocusClauses, StatusFilterOf, FocusModeOf;
    SamePlainly(f, f.(page := 1));
    SamePlainly(f, f.(pageSize := 100));
    SamePlainly(f, f.(pageSize := 500));
    hide PlainClauses;
  }

  lemma SamePlainly(f: Filter, g: Filter)
    requires g == f.(page := g.page, pageSize := g.pageSize)
    ensures PlainClauses(g) == PlainClauses(f)
  {
    assert PlainPieces(g) == PlainPieces(f);
  }

  /** The COUNT query returns the length of the list. */
  lemma CountIsLength(f: Filter, table: seq<Row>, search: Search)
    requires IsValid(f) && UniqueIds(table)
    ensures Total(Compile(f).countTokens, Compile(f).countArgs, table, search) == |Listing(f, table, search)|
  {
    hide EvalPage, EvalOr, Compile, Accepts, Focused, IsValid, Sort, Matching, UniqueIds;
    KeptMatches(f, table, search);
    MatchingIsUnique(f, table, search);
    SortSorts(Matching(f, table, search), f.ascending);
  }

  lemma MatchNothing(f: Filter, search: Search)
    ensures Matching(f, [], search) == []
  {
  }

  lemma SortNothing(ascending: bool)
    ensures Sort([], ascending) == []
  {
  }

  lemma {:induction false} MatchingIsUnique(f: Filter, table: seq<Row>, search: Search)
    requires UniqueIds(table)
    ensures UniqueIds(Matching(f, table, search))
    ensures forall r :: r in Matching(f, table, search) <==> r in table && Accepts(f, r, search)
    decreases |table|
  {
    hide Accepts;
    if table != [] {
      MatchingIsUnique(f, table[1..], search);
      assert table == [table[0]] + table[1..];
      var rest := Matching(f, table[1..], search);
      forall i | 0 <= i < |rest| ensures rest[i].id != table[0].id {
        assert rest[i] in table[1..];
        var j :| 0 <= j < |table[1..]| && table[1..][j] == rest[i];
        assert table[j + 1] == rest[i];
      }
    }
  }
}
