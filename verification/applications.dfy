/**
 * The submissions list page: a search filter over the records, an optional
 * sort by one column in either direction, a set of columns that can be
 * shown or hidden, and pages of ten rows. Lower-casing and `localeCompare`
 * are parameters; both are applied exactly where the page applies them.
 */
module Applications {
  import opened Values
  import opened Submissions

  /** An entry of the submissions array: a record, or null/undefined. */
  datatype Row = Missing | Present(record: Record)

  datatype Direction = Asc | Desc

  const ItemsPerPage := 10

  // ---------------------------------------------------------------------------
  // Search
  // ---------------------------------------------------------------------------

  /** A cell matches when it is not the id, holds a value, and its lower-cased text contains the lower-cased term. */
  predicate CellMatches(cell: (string, Value), term: string, lower: string -> string) {
    cell.0 != "id" && cell.1 != Undef && cell.1 != Null && Includes(lower(ToJsString(cell.1)), lower(term))
  }

  /** The search predicate: a present record with some matching cell. */
  predicate Survives(row: Row, term: string, lower: string -> string) {
    row.Present? && exists i | 0 <= i < |row.record| :: CellMatches(row.record[i], term, lower)
  }

  /** The rows that survive the search, in their original order. */
  function FilterRows(rows: seq<Row>, term: string, lower: string -> string): (r: seq<Row>)
    ensures |r| <= |rows|
    ensures forall x :: x in r ==> x in rows && Survives(x, term, lower)
    ensures forall i :: 0 <= i < |rows| && Survives(rows[i], term, lower) ==> rows[i] in r
    ensures forall x :: x in r ==> x.Present?
  {
    if rows == [] then []
    else
      var last := rows[|rows| - 1];
      FilterRows(rows[..|rows| - 1], term, lower) + (if Survives(last, term, lower) then [last] else [])
  }

  /** Filtering a concatenation filters each part, keeping the rows in their order. */
  lemma {:induction false} FilterRowsAppend(a: seq<Row>, b: seq<Row>, term: string, lower: string -> string)
    ensures FilterRows(a + b, term, lower) == FilterRows(a, term, lower) + FilterRows(b, term, lower)
    decreases |b|
  {
    if b == [] {
      assert a + b == a;
    } else {
      var b', x := b[..|b| - 1], b[|b| - 1];
      var tail := if Survives(x, term, lower) then [x] else [];
      calc {
        FilterRows(a + b, term, lower);
        { assert (a + b)[..|a + b| - 1] == a + b' && (a + b)[|a + b| - 1] == x; }
        FilterRows(a + b', term, lower) + tail;
        { FilterRowsAppend(a, b', term, lower); }
        FilterRows(a, term, lower) + FilterRows(b', term, lower) + tail;
        FilterRows(a, term, lower) + (FilterRows(b', term, lower) + tail);
      }
    }
  }

  /** A single row is kept exactly when it survives. */
  lemma FilterRowsOne(x: Row, term: string, lower: string -> string)
    ensures FilterRows([x], term, lower) == if Survives(x, term, lower) then [x] else []
  {
    assert [x][..0] == [];
  }

  /** Filtering keeps each surviving row as often as it occurs and drops the others entirely. */
  lemma {:induction false} FilterCounts(rows: seq<Row>, term: string, lower: string -> string, x: Row)
    ensures multiset(FilterRows(rows, term, lower))[x] == if Survives(x, term, lower) then multiset(rows)[x] else 0
    decreases |rows|
  {
    if rows != [] {
      var rest := rows[..|rows| - 1];
      FilterCounts(rest, term, lower, x);
      assert rows == rest + [rows[|rows| - 1]];
    }
  }

  /** With an empty search term every present record with a non-empty cell other than the id survives. */
  lemma EmptyTermKeeps(row: Row, lower: string -> string, i: nat)
    requires lower("") == ""
    requires row.Present? && i < |row.record|
    requires row.record[i].0 != "id" && row.record[i].1 != Undef && row.record[i].1 != Null
    ensures Survives(row, "", lower)
  {
    assert OccursAt(lower(ToJsString(row.record[i].1)), "", 0);
  }

  // ---------------------------------------------------------------------------
  // Sorting
  // ---------------------------------------------------------------------------

  /** `String(v || "")`: a falsy cell reads as the empty string. */
  function SortText(v: Value): (r: string)
    ensures v.Str? ==> r == v.s
    ensures v == Null || v == Num(0) || v == Bool(false) ==> r == ""
    ensures v.Num? && v.n != 0 ==> ParseInt(r) == Some(v.n)
  {
    if Truthy(v) then ToJsString(v) else ""
  }

  /**
   * The page's comparator on column `column`: missing rows and undefined
   * cells tie, two numbers compare by difference, everything else by the
   * locale order of the lower-cased text; "desc" swaps the operands.
   */
  function Compare(x: Row, y: Row, column: string, dir: Direction,
                   lower: string -> string, localeCompare: (string, string) -> int): (r: int)
    ensures x.Missing? || y.Missing? ==> r == 0
    ensures x.Present? && y.Present? && (Get(x.record, column) == Undef || Get(y.record, column) == Undef) ==> r == 0
  {
    if x.Missing? || y.Missing? then 0
    else
      var a, b := Get(x.record, column), Get(y.record, column);
      if a == Undef || b == Undef then 0
      else if a.Num? && b.Num? then (if dir == Asc then a.n - b.n else b.n - a.n)
      else
        var sa, sb := lower(SortText(a)), lower(SortText(b));
        if dir == Asc then localeCompare(sa, sb) else localeCompare(sb, sa)
  }

  /** Sorting descending compares the two rows the other way round. */
  lemma DescendingReverses(x: Row, y: Row, column: string, lower: string -> string,
                           localeCompare: (string, string) -> int)
    ensures Compare(x, y, column, Desc, lower, localeCompare) == Compare(y, x, column, Asc, lower, localeCompare)
  {
  }

  /** The property every comparator is expected to have: if it puts `x` after `y`, it does not also put `y` after `x`. */
  ghost predicate Consistent(localeCompare: (string, string) -> int) {
    forall s, t :: localeCompare(s, t) > 0 ==> localeCompare(t, s) <= 0
  }

  /** The page's comparator inherits consistency from `localeCompare`. */
  lemma CompareConsistent(column: string, dir: Direction, lower: string -> string,
                          localeCompare: (string, string) -> int, x: Row, y: Row)
    requires Consistent(localeCompare)
    ensures Compare(x, y, column, dir, lower, localeCompare) > 0 ==> Compare(y, x, column, dir, lower, localeCompare) <= 0
  {
  }

  /** Numbers in an ascending sort compare as numbers; descending reverses them. */
  lemma NumbersCompareByValue(x: Row, y: Row, column: string, lower: string -> string,
                              localeCompare: (string, string) -> int)
    requires x.Present? && y.Present?
    requires Get(x.record, column).Num? && Get(y.record, column).Num?
    ensures Compare(x, y, column, Asc, lower, localeCompare) < 0 <==> Get(x.record, column).n < Get(y.record, column).n
    ensures Compare(x, y, column, Desc, lower, localeCompare) < 0 <==> Get(x.record, column).n > Get(y.record, column).n
    ensures Compare(x, y, column, Asc, lower, localeCompare) == Get(x.record, column).n - Get(y.record, column).n
    ensures Compare(x, y, column, Desc, lower, localeCompare) == Get(y.record, column).n - Get(x.record, column).n
  {
  }

  /**
   * Two defined cells that are not both numbers compare by the locale
   * order of their lower-cased sort texts, the operands swapped for "desc".
   */
  lemma TextsCompareByLocale(x: Row, y: Row, column: string, dir: Direction, lower: string -> string,
                             localeCompare: (string, string) -> int)
    requires x.Present? && y.Present?
    requires Get(x.record, column) != Undef && Get(y.record, column) != Undef
    requires !(Get(x.record, column).Num? && Get(y.record, column).Num?)
    ensures var sa, sb := lower(SortText(Get(x.record, column))), lower(SortText(Get(y.record, column)));
            Compare(x, y, column, dir, lower, localeCompare) == if dir == Asc then localeCompare(sa, sb) else localeCompare(sb, sa)
  {
  }

  /** The comparator the page sorts with. */
  function SortComparator(column: string, dir: Direction, lower: string -> string,
                          localeCompare: (string, string) -> int): (Row, Row) -> int
  {
    (x, y) => Compare(x, y, column, dir, lower, localeCompare)
  }

  /** Every two neighbours are in order. */
  predicate InOrder(s: seq<Row>, cmp: (Row, Row) -> int) {
    forall k :: 0 < k < |s| ==> cmp(s[k - 1], s[k]) <= 0
  }

  /** The first `n` rows are in order. */
  predicate SortedPrefix(s: seq<Row>, n: int, cmp: (Row, Row) -> int) {
    forall k :: 0 < k < n && k < |s| ==> cmp(s[k - 1], s[k]) <= 0
  }

  /**
   * `array.sort(cmp)` for a consistent comparator: the rows are permuted
   * in place until every two neighbours are in order (insertion by
   * adjacent swaps).
   */
  method SortRows(a: array<Row>, cmp: (Row, Row) -> int)
    requires forall x, y :: cmp(x, y) > 0 ==> cmp(y, x) <= 0
    modifies a
    ensures multiset(a[..]) == multiset(old(a[..]))
    ensures InOrder(a[..], cmp)
  {
    var i := 0;
    while i < a.Length
      invariant 0 <= i <= a.Length
      invariant multiset(a[..]) == multiset(old(a[..]))
      invariant SortedPrefix(a[..], i, cmp)
    {
      Insert(a, i, cmp);
      i := i + 1;
    }
  }

  /** Moves `a[i]` down past every larger neighbour, so that the first `i + 1` rows are in order. */
  method Insert(a: array<Row>, i: int, cmp: (Row, Row) -> int)
    requires forall x, y :: cmp(x, y) > 0 ==> cmp(y, x) <= 0
    requires 0 <= i < a.Length && SortedPrefix(a[..], i, cmp)
    modifies a
    ensures multiset(a[..]) == multiset(old(a[..]))
    ensures SortedPrefix(a[..], i + 1, cmp)
  {
    var j := i;
    OpenGap(a[..], i, cmp);
    while j > 0 && cmp(a[j - 1], a[j]) > 0
      invariant 0 <= j <= i
      invariant multiset(a[..]) == multiset(old(a[..]))
      invariant OrderedBut(a[..], i, j, cmp)
    {
      ghost var before := a[..];
      Swap(a, j);
      SwapStep(before, a[..], i, j, cmp);
      j := j - 1;
    }
    ClosedGap(a[..], i, j, cmp);
  }

  /**
   * The first `i + 1` rows are in order except possibly at `j`, and the
   * rows either side of the one at `j` are in order with each other.
   */
  predicate OrderedBut(s: seq<Row>, i: int, j: int, cmp: (Row, Row) -> int)
    requires 0 <= j <= i < |s|
  {
    (forall k :: 0 < k <= i && k != j ==> cmp(s[k - 1], s[k]) <= 0) &&
    (0 < j < i ==> cmp(s[j - 1], s[j + 1]) <= 0)
  }

  /** Before the row at `i` moves, the only gap is at `i`. */
  lemma OpenGap(s: seq<Row>, i: int, cmp: (Row, Row) -> int)
    requires 0 <= i < |s| && SortedPrefix(s, i, cmp)
    ensures OrderedBut(s, i, i, cmp)
  {
  }

  /** A gap whose neighbours are in order closes the prefix. */
  lemma ClosedGap(s: seq<Row>, i: int, j: int, cmp: (Row, Row) -> int)
    requires 0 <= j <= i < |s| && OrderedBut(s, i, j, cmp)
    requires j == 0 || cmp(s[j - 1], s[j]) <= 0
    ensures SortedPrefix(s, i + 1, cmp)
  {
  }

  /** Swapping an out-of-order pair at `j` moves the gap one place down. */
  lemma SwapStep(s: seq<Row>, t: seq<Row>, i: int, j: int, cmp: (Row, Row) -> int)
    requires forall x, y :: cmp(x, y) > 0 ==> cmp(y, x) <= 0
    requires 0 < j <= i < |s| && |t| == |s|
    requires t[j - 1] == s[j] && t[j] == s[j - 1]
    requires forall k :: 0 <= k < |s| && k != j - 1 && k != j ==> t[k] == s[k]
    requires OrderedBut(s, i, j, cmp) && cmp(s[j - 1], s[j]) > 0
    ensures OrderedBut(t, i, j - 1, cmp)
  {
    forall k | 0 < k <= i && k != j - 1
      ensures cmp(t[k - 1], t[k]) <= 0
    {
      if k == j {
        assert cmp(s[j], s[j - 1]) <= 0;
      } else if k == j + 1 {
        assert t[k] == s[k];
      } else {
        assert t[k - 1] == s[k - 1] && t[k] == s[k];
      }
    }
    if 0 < j - 1 {
      assert t[j - 2] == s[j - 2];
    }
  }

  /** Exchanges `a[j - 1]` and `a[j]`. */
  method Swap(a: array<Row>, j: int)
    requires 0 < j < a.Length
    modifies a
    ensures a[j - 1] == old(a[j]) && a[j] == old(a[j - 1])
    ensures forall k :: 0 <= k < a.Length && k != j - 1 && k != j ==> a[k] == old(a[k])
    ensures multiset(a[..]) == multiset(old(a[..]))
  {
    a[j - 1], a[j] := a[j], a[j - 1];
  }

  // ---------------------------------------------------------------------------
  // Columns
  // ---------------------------------------------------------------------------

  /** The keys of a record, in order, without "id". */
  function ColumnsOf(record: Record): (r: seq<string>)
    ensures |r| <= |record|
    ensures forall c :: c in r <==> c != "id" && exists i :: 0 <= i < |record| && record[i].0 == c
  {
    if record == [] then []
    else
      var rest := ColumnsOf(record[..|record| - 1]);
      var key := record[|record| - 1].0;
      assert forall i :: 0 <= i < |record| - 1 ==> record[..|record| - 1][i] == record[i];
      rest + (if key != "id" then [key] else [])
  }

  /** The columns of a concatenation are those of each part, in key order. */
  lemma {:induction false} ColumnsAppend(a: Record, b: Record)
    ensures ColumnsOf(a + b) == ColumnsOf(a) + ColumnsOf(b)
    decreases |b|
  {
    if b == [] {
      assert a + b == a;
    } else {
      var b', cell := b[..|b| - 1], b[|b| - 1];
      var tail := if cell.0 != "id" then [cell.0] else [];
      calc {
        ColumnsOf(a + b);
        { assert (a + b)[..|a + b| - 1] == a + b' && (a + b)[|a + b| - 1] == cell; }
        ColumnsOf(a + b') + tail;
        { ColumnsAppend(a, b'); }
        ColumnsOf(a) + ColumnsOf(b') + tail;
        ColumnsOf(a) + (ColumnsOf(b') + tail);
      }
    }
  }

  /** One cell gives its key as a column unless the key is "id". */
  lemma ColumnsOne(key: string, v: Value)
    ensures ColumnsOf([(key, v)]) == if key != "id" then [key] else []
  {
    assert [(key, v)][..0] == [];
  }

  /** `!visibleColumns[c]` reads an absent entry as undefined, so a column is shown only with an explicit true. */
  predicate Shown(visible: map<string, bool>, c: string) {
    c in visible && visible[c]
  }

  /** toggleColumnVisibility: the flag of `c` is negated and every other entry kept. */
  function Toggled(visible: map<string, bool>, c: string): (r: map<string, bool>)
    ensures c in r && Shown(r, c) == !Shown(visible, c)
    ensures forall k :: k != c ==> (k in r <==> k in visible) && (k in visible ==> r[k] == visible[k])
  {
    visible[c := !Shown(visible, c)]
  }

  /** Toggling a column twice shows exactly the columns shown before. */
  lemma ToggleTwice(visible: map<string, bool>, c: string)
    ensures forall k :: Shown(Toggled(Toggled(visible, c), c), k) == Shown(visible, k)
  {
  }

  /** visibleColumnsArray: the shown columns, in column order. */
  function VisibleColumns(columns: seq<string>, visible: map<string, bool>): (r: seq<string>)
    ensures |r| <= |columns|
    ensures forall c :: c in r <==> c in columns && Shown(visible, c)
  {
    if columns == [] then []
    else
      var last := columns[|columns| - 1];
      VisibleColumns(columns[..|columns| - 1], visible) + (if Shown(visible, last) then [last] else [])
  }

  /** The shown columns of a concatenation are those of each part, in column order. */
  lemma {:induction false} VisibleColumnsAppend(a: seq<string>, b: seq<string>, visible: map<string, bool>)
    ensures VisibleColumns(a + b, visible) == VisibleColumns(a, visible) + VisibleColumns(b, visible)
    decreases |b|
  {
    if b == [] {
      assert a + b == a;
    } else {
      var b', c := b[..|b| - 1], b[|b| - 1];
      var tail := if Shown(visible, c) then [c] else [];
      calc {
        VisibleColumns(a + b, visible);
        { assert (a + b)[..|a + b| - 1] == a + b' && (a + b)[|a + b| - 1] == c; }
        VisibleColumns(a + b', visible) + tail;
        { VisibleColumnsAppend(a, b', visible); }
        VisibleColumns(a, visible) + VisibleColumns(b', visible) + tail;
        VisibleColumns(a, visible) + (VisibleColumns(b', visible) + tail);
      }
    }
  }

  /** A single column is listed exactly when it is shown. */
  lemma VisibleColumnsOne(c: string, visible: map<string, bool>)
    ensures VisibleColumns([c], visible) == if Shown(visible, c) then [c] else []
  {
    assert [c][..0] == [];
  }

  /** When every column is shown, the shown columns are all of them, in order. */
  lemma {:induction false} AllShown(columns: seq<string>, visible: map<string, bool>)
    requires forall i :: 0 <= i < |columns| ==> Shown(visible, columns[i])
    ensures VisibleColumns(columns, visible) == columns
    decreases |columns|
  {
    if columns != [] {
      var rest, last := columns[..|columns| - 1], columns[|columns| - 1];
      assert forall i :: 0 <= i < |rest| ==> rest[i] == columns[i];
      AllShown(rest, visible);
      assert Shown(visible, last);
      calc {
        VisibleColumns(columns, visible);
        VisibleColumns(rest, visible) + [last];
        rest + [last];
        columns;
      }
    }
  }

  /** Every column starts out shown. */
  method InitialVisibility(columns: seq<string>) returns (visible: map<string, bool>)
    ensures visible.Keys == set c | c in columns
    ensures forall c :: c in visible ==> visible[c]
  {
    visible := map[];
    var i := 0;
    while i < |columns|
      invariant 0 <= i <= |columns|
      invariant visible.Keys == set c | c in columns[..i]
      invariant forall c :: c in visible ==> visible[c]
    {
      assert columns[..i + 1] == columns[..i] + [columns[i]];
      visible := visible[columns[i] := true];
      i := i + 1;
    }
    assert columns[..i] == columns;
  }

  // ---------------------------------------------------------------------------
  // Pages
  // ---------------------------------------------------------------------------

  /** `Math.ceil(n / 10)`: the fewest pages of ten that hold `n` rows. */
  function TotalPages(n: nat): (t: nat)
    ensures t * ItemsPerPage >= n
    ensures t > 0 ==> (t - 1) * ItemsPerPage < n
  {
    (n + ItemsPerPage - 1) / ItemsPerPage
  }

  /** A `slice` bound: negative counts from the end, and the result is clamped to the sequence. */
  function SliceIndex(i: int, len: nat): (r: nat)
    ensures r <= len
  {
    if i < 0 then (if len + i < 0 then 0 else len + i) else if i < len then i else len
  }

  /** `s.slice(start, end)`. */
  function Slice<T>(s: seq<T>, start: int, end: int): (r: seq<T>)
    ensures |r| <= |s|
  {
    var from, to := SliceIndex(start, |s|), SliceIndex(end, |s|);
    if from < to then s[from..to] else []
  }

  /** The rows page `p` shows. */
  function PageRows(rows: seq<Row>, p: int): (r: seq<Row>)
    ensures |r| <= ItemsPerPage
    ensures p >= 1 ==> forall i :: 0 <= i < |r| ==> (p - 1) * ItemsPerPage + i < |rows| && r[i] == rows[(p - 1) * ItemsPerPage + i]
    ensures p >= 1 && p <= TotalPages(|rows|) ==> |r| > 0
    ensures p > TotalPages(|rows|) ==> r == []
  {
    Slice(rows, (p - 1) * ItemsPerPage, p * ItemsPerPage)
  }

  /** The first `k` pages, one after another. */
  function FirstPages(rows: seq<Row>, k: nat): seq<Row> {
    if k == 0 then [] else FirstPages(rows, k - 1) + PageRows(rows, k)
  }

  /** The pages together list every row once, in order. */
  lemma {:induction false} PagesCover(rows: seq<Row>, k: nat)
    ensures FirstPages(rows, k) == rows[..if k * ItemsPerPage < |rows| then k * ItemsPerPage else |rows|]
    ensures k >= TotalPages(|rows|) ==> FirstPages(rows, k) == rows
  {
    if k > 0 {
      PagesCover(rows, k - 1);
      var lo := if (k - 1) * ItemsPerPage < |rows| then (k - 1) * ItemsPerPage else |rows|;
      var hi := if k * ItemsPerPage < |rows| then k * ItemsPerPage else |rows|;
      assert PageRows(rows, k) == rows[lo..hi];
      assert rows[..lo] + rows[lo..hi] == rows[..hi];
    }
    if k >= TotalPages(|rows|) {
      assert rows[..|rows|] == rows;
    }
  }

  /** Previous: one page back, but not before the first. */
  function PreviousPage(p: int): (r: int)
    ensures r >= 1 && r <= if p > 1 then p else 1
    ensures p > 1 ==> r == p - 1
  {
    if p - 1 > 1 then p - 1 else 1
  }

  /** Next: one page on, but not past the last. */
  function NextPage(p: int, totalPages: nat): (r: int)
    ensures r <= totalPages && r <= p + 1
    ensures p < totalPages ==> r == p + 1
    ensures p >= 1 && totalPages >= 1 ==> r >= 1
    ensures p + 1 >= totalPages ==> r == totalPages
  {
    if p + 1 < totalPages then p + 1 else totalPages
  }

  // ---------------------------------------------------------------------------
  // The page state
  // ---------------------------------------------------------------------------

  /** Sort toggle: the current column flips its direction, a new column starts ascending. */
  function NextSort(column: Option<string>, dir: Direction, clicked: string): (r: (Option<string>, Direction))
    ensures r.0 == Some(clicked)
    ensures column == Some(clicked) ==> r.1 != dir
    ensures column != Some(clicked) ==> r.1 == Asc
  {
    if column == Some(clicked) then (column, if dir == Asc then Desc else Asc)
    else (Some(clicked), Asc)
  }

  /** Clicking the same header twice restores the direction; clicking a new header twice sorts it descending. */
  lemma SortTwice(column: Option<string>, dir: Direction, clicked: string)
    ensures column == Some(clicked) ==> NextSort(NextSort(column, dir, clicked).0, NextSort(column, dir, clicked).1, clicked) == (column, dir)
    ensures column != Some(clicked) ==> NextSort(NextSort(column, dir, clicked).0, NextSort(column, dir, clicked).1, clicked) == (Some(clicked), Desc)
  {
  }

  class ApplicationsPage {
    var sortColumn: Option<string>
    var sortDirection: Direction
    var visibleColumns: map<string, bool>
    var allColumns: seq<string>
    var filtered: seq<Row>
    var currentPage: int

    constructor ()
      ensures sortColumn == None && sortDirection == Asc
      ensures visibleColumns == map[] && allColumns == [] && filtered == [] && currentPage == 1
    {
      sortColumn := None;
      sortDirection := Asc;
      visibleColumns := map[];
      allColumns := [];
      filtered := [];
      currentPage := 1;
    }

    /** handleSort. */
    method HandleSort(column: string)
      modifies this`sortColumn, this`sortDirection
      ensures (sortColumn, sortDirection) == NextSort(old(sortColumn), old(sortDirection), column)
    {
      if sortColumn == Some(column) {
        sortDirection := if sortDirection == Asc then Desc else Asc;
      } else {
        sortColumn := Some(column);
        sortDirection := Asc;
      }
    }

    /** toggleColumnVisibility. */
    method ToggleColumnVisibility(column: string)
      modifies this`visibleColumns
      ensures visibleColumns == Toggled(old(visibleColumns), column)
    {
      visibleColumns := visibleColumns[column := !(column in visibleColumns && visibleColumns[column])];
    }

    /**
     * The columns, taken from the first submission when there is one: its
     * keys without "id", all shown. A missing first entry makes reading
     * its keys fail, which leaves no columns.
     */
    method DeriveColumns(submissions: seq<Row>)
      modifies this`allColumns, this`visibleColumns
      ensures |submissions| == 0 ==> allColumns == old(allColumns) && visibleColumns == old(visibleColumns)
      ensures |submissions| > 0 && submissions[0].Missing? ==> allColumns == [] && visibleColumns == map[]
      ensures |submissions| > 0 && submissions[0].Present? ==>
                allColumns == ColumnsOf(submissions[0].record) &&
                visibleColumns.Keys == (set c | c in allColumns) && VisibleColumns(allColumns, visibleColumns) == allColumns
    {
      if |submissions| > 0 {
        match submissions[0]
        case Missing =>
          allColumns := [];
          visibleColumns := map[];
        case Present(record) =>
          var columns := ColumnsOf(record);
          allColumns := columns;
          visibleColumns := InitialVisibility(columns);
          assert forall i :: 0 <= i < |columns| ==> columns[i] in visibleColumns;
          AllShown(allColumns, visibleColumns);
      }
    }

    /**
     * Recompute the listed rows: the search filter, then, when a non-empty
     * sort column is chosen, an in-place sort with the page's comparator.
     */
    method Refresh(submissions: seq<Row>, searchTerm: string, lower: string -> string,
                   localeCompare: (string, string) -> int)
      requires Consistent(localeCompare)
      modifies this`filtered
      ensures multiset(filtered) == multiset(FilterRows(submissions, searchTerm, lower))
      ensures sortColumn.None? || sortColumn.value == "" ==> filtered == FilterRows(submissions, searchTerm, lower)
      ensures sortColumn.Some? && sortColumn.value != "" ==>
                InOrder(filtered, SortComparator(sortColumn.value, sortDirection, lower, localeCompare))
    {
      var rows := FilterRows(submissions, searchTerm, lower);
      if sortColumn.Some? && sortColumn.value != "" {
        var column, dir := sortColumn.value, sortDirection;
        var a := new Row[|rows|](i requires 0 <= i < |rows| => rows[i]);
        assert a[..] == rows;
        var cmp := SortComparator(column, dir, lower, localeCompare);
        forall x, y
          ensures cmp(x, y) > 0 ==> cmp(y, x) <= 0
        {
          CompareConsistent(column, dir, lower, localeCompare, x, y);
        }
        SortRows(a, cmp);
        filtered := a[..];
      } else {
        filtered := rows;
      }
    }

    /** The rows of the current page. */
    function Paginated(): (r: seq<Row>)
      reads this
      ensures |r| <= ItemsPerPage
    {
      PageRows(filtered, currentPage)
    }

    /** The Previous button. */
    method Previous()
      modifies this`currentPage
      ensures currentPage == PreviousPage(old(currentPage))
    {
      currentPage := if currentPage - 1 > 1 then currentPage - 1 else 1;
    }

    /** The Next button. */
    method Next()
      modifies this`currentPage
      ensures currentPage == NextPage(old(currentPage), TotalPages(|filtered|))
    {
      var totalPages := TotalPages(|filtered|);
      currentPage := if currentPage + 1 < totalPages then currentPage + 1 else totalPages;
    }
  }
}
