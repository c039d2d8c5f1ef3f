/** The data table: rows are filtered by per-column text queries, sorted
    stably on one column's lower-cased text, and cut into pages; sort
    toggles, filter edits and the page buttons change the view state. */
module DataTable {
  import opened Seqs
  import opened Text
  import opened Values
  import opened StableSort

  type Row = Record

  /** A column descriptor. */
  datatype Column = Column(key: string, caption: string, sortable: bool, filterable: bool)

  /** The text both the filter and the sort compare:
      `String(row[key]).toLowerCase()`. */
  function CellKey(row: Row, key: string): string
  {
    Lower(FieldText(row, key))
  }

  /** The filter of one column with query `q`. */
  predicate CellMatches(row: Row, key: string, q: string)
  {
    Includes(CellKey(row, key), Lower(q))
  }

  function MatchesPredicate(key: string, q: string): Row -> bool
  {
    (row: Row) => CellMatches(row, key, q)
  }

  /** The row passes the non-empty filters of the columns in `keys`. */
  predicate PassesOn(row: Row, filters: map<string, string>, keys: set<string>)
  {
    forall k :: k in keys && k in filters && filters[k] != "" ==> CellMatches(row, k, filters[k])
  }

  function PassesPredicate(filters: map<string, string>, keys: set<string>): Row -> bool
  {
    (row: Row) => PassesOn(row, filters, keys)
  }

  /** The row passes every filter: the conjunction of all non-empty queries. */
  predicate Passes(row: Row, filters: map<string, string>)
  {
    PassesOn(row, filters, filters.Keys)
  }

  /** The rows that pass every filter, in data order. */
  function FilterRows(data: seq<Row>, filters: map<string, string>): seq<Row>
  {
    Filter(data, PassesPredicate(filters, filters.Keys))
  }

  function SortKeyOf(column: string): Row -> string
  {
    (row: Row) => CellKey(row, column)
  }

  /** `if (sortColumn)`: a sort is applied only for a non-empty column key. */
  predicate SortActive(sortColumn: Option<string>)
  {
    sortColumn.Some? && sortColumn.value != ""
  }

  /** `filteredAndSortedData`: filter, then stably sort when a column is active.
      The view holds exactly the filtered rows, each as often as it passes. */
  function DerivedRows(data: seq<Row>, filters: map<string, string>,
                       sortColumn: Option<string>, dir: Direction): (r: seq<Row>)
    ensures multiset(r) == multiset(FilterRows(data, filters))
  {
    var filtered := FilterRows(data, filters);
    if SortActive(sortColumn) then
      SortPermutation(filtered, SortKeyOf(sortColumn.value), dir);
      Sort(filtered, SortKeyOf(sortColumn.value), dir)
    else filtered
  }

  /** `Math.ceil(n / pageSize)`. */
  function TotalPages(n: nat, pageSize: int): (t: nat)
    requires pageSize > 0
    ensures t * pageSize >= n
    ensures t > 0 ==> (t - 1) * pageSize < n
    ensures t == 0 <==> n == 0
  {
    (n + pageSize - 1) / pageSize
  }

  /** `(currentPage - 1) * pageSize`. */
  function StartIndex(page: int, pageSize: int): int
  {
    (page - 1) * pageSize
  }

  /** `rows.slice(start, start + pageSize)` for a start that is not negative:
      both ends are clipped to the length. */
  function PageRows(rows: seq<Row>, page: int, pageSize: int): (r: seq<Row>)
    requires page >= 1 && pageSize > 0
    ensures |r| <= pageSize
    ensures |r| == if StartIndex(page, pageSize) >= |rows| then 0
                   else Min(pageSize, |rows| - StartIndex(page, pageSize))
    ensures forall i :: 0 <= i < |r| ==> r[i] == rows[StartIndex(page, pageSize) + i]
  {
    var start := StartIndex(page, pageSize);
    assert start >= 0 by { MulNonNegative(page - 1, pageSize); }
    var lo := Min(start, |rows|);
    var hi := Min(start + pageSize, |rows|);
    rows[lo..hi]
  }

  function Min(a: int, b: int): int
  {
    if a <= b then a else b
  }

  lemma MulNonNegative(a: int, b: int)
    requires a >= 0 && b >= 0
    ensures a * b >= 0
  {
  }

  /** The filter loop of `filteredAndSortedData`: `result` is narrowed once
      per non-empty filter entry, in whatever order the entries come, and
      the copy is then sorted. */
  method ComputeRows(data: seq<Row>, filters: map<string, string>,
                     sortColumn: Option<string>, dir: Direction) returns (result: seq<Row>)
    ensures result == DerivedRows(data, filters, sortColumn, dir)
  {
    result := data;
    FilterAll(data, PassesPredicate(filters, {}));
    var todo := filters.Keys;
    ghost var done: set<string> := {};
    while todo != {}
      invariant todo + done == filters.Keys && todo !! done
      invariant result == Filter(data, PassesPredicate(filters, done))
      decreases todo
    {
      var k :| k in todo;
      var q := filters[k];
      if q != "" {
        FilterStep(data, filters, done, k);
        result := Filter(result, MatchesPredicate(k, q));
      } else {
        FilterCongruent(data, PassesPredicate(filters, done), PassesPredicate(filters, done + {k}));
      }
      todo := todo - {k};
      done := done + {k};
    }
    assert done == filters.Keys;
    if SortActive(sortColumn) {
      result := Sort(result, SortKeyOf(sortColumn.value), dir);
    }
  }

  /** One more non-empty filter narrows the rows by that column's match. */
  lemma FilterStep(data: seq<Row>, filters: map<string, string>, done: set<string>, k: string)
    requires k in filters && filters[k] != ""
    ensures Filter(Filter(data, PassesPredicate(filters, done)), MatchesPredicate(k, filters[k]))
         == Filter(data, PassesPredicate(filters, done + {k}))
  {
    var both := PassesPredicate(filters, done + {k});
    forall row: Row
      ensures both(row) == (PassesPredicate(filters, done)(row) && MatchesPredicate(k, filters[k])(row))
    {
    }
    FilterTwice(data, PassesPredicate(filters, done), MatchesPredicate(k, filters[k]), both);
  }

  /** Filter conjunction: a row is kept exactly as often as it occurs in the
      data when it matches every non-empty filter, and dropped otherwise. */
  lemma FilterRowsCount(data: seq<Row>, filters: map<string, string>, row: Row)
    ensures Count(FilterRows(data, filters), row) == if Passes(row, filters) then Count(data, row) else 0
    ensures row in FilterRows(data, filters) <==> row in data && Passes(row, filters)
  {
    FilterCount(data, PassesPredicate(filters, filters.Keys), row);
    FilterMembership(data, PassesPredicate(filters, filters.Keys), row);
  }

  /** Filtering keeps the data order: the result is a subsequence of `data`. */
  lemma FilterRowsOrder(data: seq<Row>, filters: map<string, string>)
    ensures IsSubsequence(FilterRows(data, filters), data)
  {
    FilterIsSubsequence(data, PassesPredicate(filters, filters.Keys));
  }

  /** Empty queries impose nothing. */
  lemma EmptyFiltersKeepAll(data: seq<Row>, filters: map<string, string>)
    requires forall k :: k in filters ==> filters[k] == ""
    ensures FilterRows(data, filters) == data
  {
    FilterAll(data, PassesPredicate(filters, filters.Keys));
  }

  /** Clearing every filter that was set restores the unfiltered, currently
      sorted rows. */
  lemma ClearingFiltersRestores(data: seq<Row>, filters: map<string, string>,
                                sortColumn: Option<string>, dir: Direction)
    ensures DerivedRows(data, map k | k in filters :: "", sortColumn, dir)
         == DerivedRows(data, map[], sortColumn, dir)
  {
    EmptyFiltersKeepAll(data, map k | k in filters :: "");
    EmptyFiltersKeepAll(data, map[]);
  }

  /** With no active sort column the filtered rows keep the data order. */
  lemma UnsortedKeepsOrder(data: seq<Row>, filters: map<string, string>,
                           sortColumn: Option<string>, dir: Direction)
    requires !SortActive(sortColumn)
    ensures IsSubsequence(DerivedRows(data, filters, sortColumn, dir), data)
  {
    FilterRowsOrder(data, filters);
  }

  /** With a sort column the view is a permutation of the filtered rows,
      ordered by the comparator on the lower-cased key, and rows with equal
      keys keep their filtered order in both directions. */
  lemma SortedView(data: seq<Row>, filters: map<string, string>, column: string, dir: Direction, k: string)
    requires column != ""
    ensures multiset(DerivedRows(data, filters, Some(column), dir)) == multiset(FilterRows(data, filters))
    ensures SortedBy(DerivedRows(data, filters, Some(column), dir), SortKeyOf(column), dir)
    ensures WithKey(DerivedRows(data, filters, Some(column), dir), SortKeyOf(column), k)
         == WithKey(FilterRows(data, filters), SortKeyOf(column), k)
  {
    var f := FilterRows(data, filters);
    SortPermutation(f, SortKeyOf(column), dir);
    SortSorted(f, SortKeyOf(column), dir);
    SortStable(f, SortKeyOf(column), dir, k);
  }

  /** Adjacent rows of a sorted view are in order of their keys: ascending
      keys never decrease, descending keys never increase. */
  lemma SortedViewAdjacent(data: seq<Row>, filters: map<string, string>, column: string, dir: Direction, i: nat)
    requires column != ""
    requires i + 1 < |FilterRows(data, filters)|
    ensures var v := DerivedRows(data, filters, Some(column), dir);
            i + 1 < |v| &&
            var a, b := CellKey(v[i], column), CellKey(v[i + 1], column);
            if dir == Asc then !Less(b, a) else !Less(a, b)
  {
    SortSorted(FilterRows(data, filters), SortKeyOf(column), dir);
    var v := DerivedRows(data, filters, Some(column), dir);
    assert |v| == |multiset(v)| == |multiset(FilterRows(data, filters))| == |FilterRows(data, filters)|;
    assert !Precedes(SortKeyOf(column)(v[i + 1]), SortKeyOf(column)(v[i]), dir);
  }

  /** The visible page never holds more than `pageSize` rows. */
  lemma PageBounded(rows: seq<Row>, page: int, pageSize: int)
    requires page >= 1 && pageSize > 0
    ensures |PageRows(rows, page, pageSize)| <= pageSize
    ensures page <= TotalPages(|rows|, pageSize) ==> PageRows(rows, page, pageSize) != []
  {
    var t := TotalPages(|rows|, pageSize);
    if page <= t {
      assert StartIndex(page, pageSize) <= (t - 1) * pageSize by {
        MulMonotone(page - 1, t - 1, pageSize);
      }
    }
  }

  lemma MulMonotone(a: int, b: int, c: int)
    requires 0 <= a <= b && c >= 0
    ensures a * c <= b * c
  {
  }

  /** Five rows at three per page: two pages, of three and two rows; no
      rows make no pages; a thousand rows at ten per page make a hundred. */
  lemma PagingExamples(rows: seq<Row>)
    requires |rows| == 5
    ensures TotalPages(|rows|, 3) == 2
    ensures PageRows(rows, 1, 3) == rows[..3] && PageRows(rows, 2, 3) == rows[3..]
    ensures TotalPages(0, 10) == 0 && PageRows([], 1, 10) == []
    ensures TotalPages(1000, 10) == 100
  {
  }

  /** The view state of one table. */
  class Table {
    var data: seq<Row>
    var columns: seq<Column>
    const pageSize: int
    const hasRowClick: bool
    var currentPage: int
    var sortColumn: Option<string>
    var sortDirection: Direction
    var filters: map<string, string>

    ghost predicate Valid()
      reads this
    {
      pageSize > 0 && currentPage >= 1
    }

    /** A fresh table; `pageSize` defaults to 10. */
    constructor (data: seq<Row>, columns: seq<Column>, pageSize: Option<int>, hasRowClick: bool)
      requires pageSize.Some? ==> pageSize.value > 0
      ensures Valid()
      ensures this.data == data && this.columns == columns && this.hasRowClick == hasRowClick
      ensures this.pageSize == if pageSize.Some? then pageSize.value else 10
      ensures currentPage == 1 && sortColumn == None && sortDirection == Asc && filters == map[]
    {
      this.data := data;
      this.columns := columns;
      this.pageSize := if pageSize.Some? then pageSize.value else 10;
      this.hasRowClick := hasRowClick;
      currentPage := 1;
      sortColumn := None;
      sortDirection := Asc;
      filters := map[];
    }

    /** `filteredAndSortedData`. */
    function Rows(): seq<Row>
      reads this
    {
      DerivedRows(data, filters, sortColumn, sortDirection)
    }

    function PageCount(): nat
      reads this
      requires Valid()
    {
      TotalPages(|Rows()|, pageSize)
    }

    /** `paginatedData`. */
    function VisibleRows(): seq<Row>
      reads this
      requires Valid()
    {
      PageRows(Rows(), currentPage, pageSize)
    }

    predicate PreviousDisabled()
      reads this
    {
      currentPage == 1
    }

    predicate NextDisabled()
      reads this
      requires Valid()
    {
      currentPage == PageCount()
    }

    /** `handleSort`: the active column flips direction, another column
        becomes active ascending; the page goes back to 1. */
    method HandleSort(columnKey: string)
      requires Valid()
      modifies this
      ensures Valid()
      ensures sortColumn == Some(columnKey)
      ensures old(sortColumn) == Some(columnKey) ==>
                sortDirection == (if old(sortDirection) == Asc then Desc else Asc)
      ensures old(sortColumn) != Some(columnKey) ==> sortDirection == Asc
      ensures currentPage == 1
      ensures filters == old(filters) && data == old(data) && columns == old(columns)
    {
      if sortColumn == Some(columnKey) {
        sortDirection := if sortDirection == Asc then Desc else Asc;
      } else {
        sortColumn := Some(columnKey);
        sortDirection := Asc;
      }
      currentPage := 1;
    }

    /** `handleFilter`: only this column's query changes; the page goes back to 1. */
    method HandleFilter(columnKey: string, value: string)
      requires Valid()
      modifies this
      ensures Valid()
      ensures filters == old(filters)[columnKey := value]
      ensures forall k :: k != columnKey ==> (k in filters <==> k in old(filters))
      ensures forall k :: k != columnKey && k in filters ==> filters[k] == old(filters)[k]
      ensures currentPage == 1
      ensures sortColumn == old(sortColumn) && sortDirection == old(sortDirection)
      ensures data == old(data) && columns == old(columns)
    {
      filters := filters[columnKey := value];
      currentPage := 1;
    }

    /** The Previous button: disabled on page 1, otherwise one page back. */
    method ClickPrevious()
      requires Valid()
      modifies this`currentPage
      ensures Valid()
      ensures currentPage == if old(currentPage) == 1 then 1 else old(currentPage) - 1
    {
      if !PreviousDisabled() {
        currentPage := currentPage - 1;
      }
    }

    /** The Next button: disabled when the page equals the page count (so
        still enabled when there are no pages), otherwise one page on. */
    method ClickNext()
      requires Valid()
      modifies this`currentPage
      ensures Valid()
      ensures old(currentPage) == PageCount() ==> currentPage == old(currentPage)
      ensures old(currentPage) != PageCount() ==> currentPage == old(currentPage) + 1
    {
      if !NextDisabled() {
        currentPage := currentPage + 1;
      }
    }

    /** A new `data` prop: the view is recomputed, the page is kept. */
    method SetData(newData: seq<Row>)
      requires Valid()
      modifies this`data
      ensures Valid() && data == newData
    {
      data := newData;
    }

    /** Computes the visible rows the way the component does on each render. */
    method Render() returns (visible: seq<Row>)
      requires Valid()
      ensures visible == VisibleRows()
    {
      var rows := ComputeRows(data, filters, sortColumn, sortDirection);
      visible := PageRows(rows, currentPage, pageSize);
    }

    /** A click on visible row `i` hands that very row to `onRowClick`, when
        one was given. */
    method ClickRow(i: nat) returns (passed: Option<Row>)
      requires Valid() && i < |VisibleRows()|
      ensures hasRowClick ==> passed == Some(VisibleRows()[i])
      ensures !hasRowClick ==> passed == None
    {
      var visible := Render();
      passed := if hasRowClick then Some(visible[i]) else None;
    }
  }

  /** Clicking the sort button of a new column twice sorts it descending. */
  method SortTwiceDescends(t: Table, key: string)
    requires t.Valid() && t.sortColumn != Some(key)
    modifies t
    ensures t.sortColumn == Some(key) && t.sortDirection == Desc && t.currentPage == 1
  {
    t.HandleSort(key);
    t.HandleSort(key);
  }

  /** After moving to any page, editing a filter shows page 1 again. */
  method FilterResetsPage(t: Table, key: string, value: string)
    requires t.Valid()
    modifies t
    ensures t.Valid() && t.currentPage == 1 && t.PreviousDisabled()
    ensures t.NextDisabled() <==> t.PageCount() == 1
  {
    t.ClickNext();
    t.HandleFilter(key, value);
  }

  /** With no rows there are no pages, yet Next stays enabled: one click
      shows "Page 2 of 0" with nothing on it. */
  method NextWithNoRows(t: Table)
    requires t.Valid() && t.currentPage == 1 && t.Rows() == []
    modifies t
    ensures t.Valid() && t.PageCount() == 0 && t.currentPage == 2 && t.VisibleRows() == []
  {
    t.ClickNext();
  }
}
