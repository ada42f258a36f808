/**
 * `calculate_distances_from_csv`: check the input, pick the two postcode
 * columns by position, compute one distance cell per row and store the
 * cells in a `distance_miles` column. Any exception on the way makes the
 * whole run answer `None`.
 */
module Frame {
  import opened Wrappers
  import opened Resolver

  /** The per-row resolver the processor calls: `Run` passes `Resolver.Resolve` with the dataset. */
  type Resolution = (string, string) -> Distance

  /** One value of the loaded table: text, a number, or a missing value (NaN). */
  datatype Cell = Str(text: string) | Num(number: real) | Missing

  /** A loaded frame: ordered column names and rows of cells. */
  datatype Table = Table(headers: seq<string>, rows: seq<seq<Cell>>)

  /** What the file system and `read_csv` hand over: no file, a file that fails to load, or a table. */
  datatype Source = NoFile | Unreadable | Loaded(table: Table)

  const DistanceHeader: string := "distance_miles"
  const InvalidText: string := "Invalid postcode"

  /** Frames built by `read_csv` are rectangular and their column names are distinct
      (repeated names in the header line are renamed on load). */
  predicate WellFormed(t: Table) {
    && (forall i, j :: 0 <= i < j < |t.headers| ==> t.headers[i] != t.headers[j])
    && (forall k :: 0 <= k < |t.rows| ==> |t.rows[k]| == |t.headers|)
  }

  /** The resolver's answer as a cell of the output column. */
  function DistanceCell(d: Distance): (c: Cell)
    ensures c == Str(InvalidText) <==> d == Invalid
    ensures d.Miles? ==> c == Num(d.miles)
  {
    match d
    case Invalid => Str(InvalidText)
    case Miles(m) => Num(m)
  }

  /** Python's `columns[idx]` position: a negative index counts from the end. */
  function PythonIndex(idx: int, n: nat): (r: int)
    ensures 0 <= r < n <==> -(n as int) <= idx < n
    ensures idx >= 0 ==> r == idx
    ensures idx < 0 ==> r == n + idx
  {
    if idx < 0 then n + idx else idx
  }

  /** Whether computing a row's distance raises: both cells are present, so the resolver is
      called, and one of them is a number, which has no `strip()`. */
  predicate RowRaises(row: seq<Cell>, s: nat, d: nat)
    requires s < |row| && d < |row|
  {
    !row[s].Missing? && !row[d].Missing? && (row[s].Num? || row[d].Num?)
  }

  /** `calculate_distance(row)`; `None` when it raises. */
  function RowDistance(resolve: Resolution, row: seq<Cell>, s: nat, d: nat): (r: Option<Cell>)
    requires s < |row| && d < |row|
    ensures r.None? <==> RowRaises(row, s, d)
    ensures row[s].Missing? || row[d].Missing? ==> r == Some(Str(InvalidText))
    ensures row[s].Str? && row[d].Str? ==> r == Some(DistanceCell(resolve(row[s].text, row[d].text)))
  {
    if row[s].Missing? || row[d].Missing? then
      Some(Str(InvalidText))
    else if row[s].Str? && row[d].Str? then
      Some(DistanceCell(resolve(row[s].text, row[d].text)))
    else
      None
  }

  /** `df.apply(calculate_distance, axis=1)`: one cell per row, in row order, or `None`
      as soon as any row raises. */
  function DistanceColumn(resolve: Resolution, rows: seq<seq<Cell>>, s: nat, d: nat): (r: Option<seq<Cell>>)
    requires forall k :: 0 <= k < |rows| ==> s < |rows[k]| && d < |rows[k]|
    ensures r.Some? <==> forall k :: 0 <= k < |rows| ==> !RowRaises(rows[k], s, d)
    ensures r.Some? ==> |r.value| == |rows|
    ensures r.Some? ==> forall k :: 0 <= k < |rows| ==> Some(r.value[k]) == RowDistance(resolve, rows[k], s, d)
    decreases |rows|
  {
    if |rows| == 0 then
      Some([])
    else
      match RowDistance(resolve, rows[0], s, d)
      case None => None
      case Some(c) =>
        match DistanceColumn(resolve, rows[1..], s, d)
        case None => None
        case Some(cs) => Some([c] + cs)
  }

  /** Position of a column name. */
  function IndexOf(headers: seq<string>, name: string): (j: nat)
    requires name in headers
    ensures j < |headers| && headers[j] == name
    ensures forall i :: 0 <= i < j ==> headers[i] != name
  {
    if headers[0] == name then 0 else 1 + IndexOf(headers[1..], name)
  }

  /**
   * `df[name] = col`: an existing column of that name is overwritten in place,
   * otherwise a new last column is added. Every other cell and the row order
   * stay as they were.
   */
  function WithColumn(t: Table, name: string, col: seq<Cell>): (r: Table)
    requires WellFormed(t) && |col| == |t.rows|
    ensures WellFormed(r)
    ensures r.headers == if name in t.headers then t.headers else t.headers + [name]
    ensures |r.rows| == |t.rows|
    ensures forall k, j :: 0 <= k < |t.rows| && 0 <= j < |t.headers| && t.headers[j] != name ==>
      r.rows[k][j] == t.rows[k][j]
    ensures forall k :: 0 <= k < |t.rows| ==> r.rows[k][IndexOf(r.headers, name)] == col[k]
  {
    if name in t.headers then
      var j := IndexOf(t.headers, name);
      Table(t.headers, seq(|t.rows|, k requires 0 <= k < |t.rows| => t.rows[k][j := col[k]]))
    else
      Table(t.headers + [name], seq(|t.rows|, k requires 0 <= k < |t.rows| => t.rows[k] + [col[k]]))
  }

  /** Both selected positions are accepted: below the column count (the explicit check)
      and not so negative that `columns[idx]` raises. */
  predicate IndicesSelectable(n: nat, si: int, di: int) {
    -(n as int) <= si < n && -(n as int) <= di < n
  }

  /**
   * `calculate_distances_from_csv(input_file, si, di)`. It answers `None` when
   * the file is missing or fails to load, when an index is out of range, or
   * when any row raises; otherwise the loaded table with its distance column.
   */
  function Process(resolve: Resolution, src: Source, si: int, di: int): (r: Option<Table>)
    requires src.Loaded? ==> WellFormed(src.table)
    ensures r.Some? <==>
      && src.Loaded?
      && IndicesSelectable(|src.table.headers|, si, di)
      && var n := |src.table.headers|;
         forall k :: 0 <= k < |src.table.rows| ==>
           !RowRaises(src.table.rows[k], PythonIndex(si, n), PythonIndex(di, n))
  {
    match src
    case NoFile => None
    case Unreadable => None
    case Loaded(t) =>
      var n := |t.headers|;
      if si >= n || di >= n then None
      else if si < -(n as int) || di < -(n as int) then None
      else
        match DistanceColumn(resolve, t.rows, PythonIndex(si, n), PythonIndex(di, n))
        case None => None
        case Some(col) => Some(WithColumn(t, DistanceHeader, col))
  }

  /**
   * On success the output is the input table with the distance column set:
   * same rows in the same order, every other column untouched, the column
   * name added once at the end or reused where it already stood, and each
   * row's distance cell the one computed from that row.
   */
  lemma ProcessKeepsTable(resolve: Resolution, t: Table, si: int, di: int)
    requires WellFormed(t)
    requires Process(resolve, Loaded(t), si, di).Some?
    ensures var out := Process(resolve, Loaded(t), si, di).value;
      && var n := |t.headers|;
      && WellFormed(out)
      && out.headers == (if DistanceHeader in t.headers then t.headers else t.headers + [DistanceHeader])
      && |out.rows| == |t.rows|
      && (forall k, j :: 0 <= k < |t.rows| && 0 <= j < n && t.headers[j] != DistanceHeader ==>
            out.rows[k][j] == t.rows[k][j])
      && (forall k :: 0 <= k < |t.rows| ==>
            Some(out.rows[k][IndexOf(out.headers, DistanceHeader)])
              == RowDistance(resolve, t.rows[k], PythonIndex(si, n), PythonIndex(di, n)))
  {
  }

  /** A row whose source or destination cell is missing gets the sentinel whatever the resolver
      would answer: the resolver is not called for it. */
  lemma MissingCellGivesSentinel(resolve: Resolution, t: Table, si: int, di: int, k: int)
    requires WellFormed(t)
    requires Process(resolve, Loaded(t), si, di).Some?
    requires 0 <= k < |t.rows|
    requires t.rows[k][PythonIndex(si, |t.headers|)].Missing? || t.rows[k][PythonIndex(di, |t.headers|)].Missing?
    ensures forall other: Resolution ::
      var out := Process(other, Loaded(t), si, di).value;
      out.rows[k][IndexOf(out.headers, DistanceHeader)] == Str(InvalidText)
  {
    forall other: Resolution
      ensures var out := Process(other, Loaded(t), si, di).value;
        out.rows[k][IndexOf(out.headers, DistanceHeader)] == Str(InvalidText)
    {
      ProcessKeepsTable(other, t, si, di);
    }
  }

  /** All or nothing: one row whose postcode cell is a number makes the whole run answer `None`. */
  lemma NumericCellAbortsRun(resolve: Resolution, t: Table, si: int, di: int, k: int)
    requires WellFormed(t)
    requires IndicesSelectable(|t.headers|, si, di)
    requires 0 <= k < |t.rows|
    requires RowRaises(t.rows[k], PythonIndex(si, |t.headers|), PythonIndex(di, |t.headers|))
    ensures Process(resolve, Loaded(t), si, di) == None
  {
  }

  /** A missing input file, or an index equal to or above the column count, fails the run. */
  lemma BadInputFails(resolve: Resolution, src: Source, si: int, di: int)
    requires src.Loaded? ==> WellFormed(src.table)
    requires !src.Loaded? || si >= |src.table.headers| || di >= |src.table.headers|
    ensures Process(resolve, src, si, di) == None
  {
  }

  /** A row's distance depends on its two postcode cells only. */
  lemma RowDistanceSeesCellsOnly(resolve: Resolution, r1: seq<Cell>, r2: seq<Cell>, s: nat, d: nat)
    requires s < |r1| && d < |r1| && s < |r2| && d < |r2|
    requires r1[s] == r2[s] && r1[d] == r2[d]
    ensures RowDistance(resolve, r1, s, d) == RowDistance(resolve, r2, s, d)
  {
  }

  /** Setting the same column twice is setting it once. */
  lemma WithColumnTwice(t: Table, name: string, col: seq<Cell>)
    requires WellFormed(t) && |col| == |t.rows|
    ensures WithColumn(WithColumn(t, name, col), name, col) == WithColumn(t, name, col)
  {
    var t1 := WithColumn(t, name, col);
    var t2 := WithColumn(t1, name, col);
    var j := IndexOf(t1.headers, name);
    assert t2.headers == t1.headers;
    forall k | 0 <= k < |t1.rows|
      ensures t2.rows[k] == t1.rows[k]
    {
      assert t2.rows[k] == t1.rows[k][j := col[k]];
    }
  }

  /**
   * Running the processor on its own output, with the same postcode columns,
   * gives that output back: the distance column is overwritten in place, not
   * added a second time.
   */
  lemma ProcessTwiceChangesNothing(resolve: Resolution, t: Table, si: int, di: int)
    requires WellFormed(t)
    requires 0 <= si < |t.headers| && 0 <= di < |t.headers|
    requires t.headers[si] != DistanceHeader && t.headers[di] != DistanceHeader
    requires Process(resolve, Loaded(t), si, di).Some?
    ensures var out := Process(resolve, Loaded(t), si, di).value;
      Process(resolve, Loaded(out), si, di) == Some(out)
  {
    var col := DistanceColumn(resolve, t.rows, si, di).value;
    var out := WithColumn(t, DistanceHeader, col);
    assert Process(resolve, Loaded(t), si, di) == Some(out);
    forall k | 0 <= k < |out.rows|
      ensures RowDistance(resolve, out.rows[k], si, di) == Some(col[k])
    {
      RowDistanceSeesCellsOnly(resolve, out.rows[k], t.rows[k], si, di);
    }
    ColumnFromCells(resolve, out.rows, si, di, col);
    WithColumnTwice(t, DistanceHeader, col);
  }

  lemma ColumnFromCells(resolve: Resolution, rows: seq<seq<Cell>>, s: nat, d: nat, cells: seq<Cell>)
    requires forall k :: 0 <= k < |rows| ==> s < |rows[k]| && d < |rows[k]|
    requires |cells| == |rows|
    requires forall k :: 0 <= k < |rows| ==> RowDistance(resolve, rows[k], s, d) == Some(cells[k])
    ensures DistanceColumn(resolve, rows, s, d) == Some(cells)
  {
    var expected := DistanceColumn(resolve, rows, s, d);
    assert forall k :: 0 <= k < |rows| ==> !RowRaises(rows[k], s, d);
    assert expected.value == cells by {
      assert forall k :: 0 <= k < |rows| ==> Some(expected.value[k]) == Some(cells[k]);
    }
  }

  /**
   * The row scan as an explicit loop: build the distance column one cell at
   * a time, stopping at the first row that raises.
   */
  method ScanRows(resolve: Resolution, rows: seq<seq<Cell>>, s: nat, d: nat) returns (col: Option<seq<Cell>>)
    requires forall k :: 0 <= k < |rows| ==> s < |rows[k]| && d < |rows[k]|
    ensures col == DistanceColumn(resolve, rows, s, d)
  {
    var cells: seq<Cell> := [];
    var k := 0;
    while k < |rows|
      invariant 0 <= k <= |rows|
      invariant |cells| == k
      invariant forall i :: 0 <= i < k ==> RowDistance(resolve, rows[i], s, d) == Some(cells[i])
    {
      var cell := RowDistance(resolve, rows[k], s, d);
      if cell.None? {
        assert RowRaises(rows[k], s, d);
        return None;
      }
      cells := cells + [cell.value];
      k := k + 1;
    }
    ColumnFromCells(resolve, rows, s, d, cells);
    return Some(cells);
  }

  /** The processor with the row scan done by `ScanRows`; it agrees with `Process` on every input. */
  method ProcessTable(resolve: Resolution, src: Source, si: int, di: int) returns (out: Option<Table>)
    requires src.Loaded? ==> WellFormed(src.table)
    ensures out == Process(resolve, src, si, di)
  {
    if !src.Loaded? {
      return None;
    }
    var t := src.table;
    var n := |t.headers|;
    if !IndicesSelectable(n, si, di) {
      return None;
    }
    var s, d := PythonIndex(si, n), PythonIndex(di, n);
    var col := ScanRows(resolve, t.rows, s, d);
    if col.None? {
      return None;
    }
    out := Some(WithColumn(t, DistanceHeader, col.value));
  }

  /** The run as the program performs it: every row resolved by `get_distance_between_postcodes`
      over the postcode dataset. */
  function Run(lookup: Lookup, src: Source, si: int, di: int): (r: Option<Table>)
    requires src.Loaded? ==> WellFormed(src.table)
    ensures r.Some? <==>
      && src.Loaded?
      && IndicesSelectable(|src.table.headers|, si, di)
      && var n := |src.table.headers|;
         forall k :: 0 <= k < |src.table.rows| ==>
           !RowRaises(src.table.rows[k], PythonIndex(si, n), PythonIndex(di, n))
    ensures r.Some? ==> DistanceHeader in r.value.headers && |r.value.rows| == |src.table.rows|
  {
    Process((a: string, b: string) => Resolve(lookup, a, b), src, si, di)
  }

  /** In a successful run, a row with two text postcode cells gets the resolver's answer for
      those two texts, as a number of miles or as the sentinel text. */
  lemma RunResolvesEachRow(lookup: Lookup, t: Table, si: int, di: int, k: int)
    requires WellFormed(t)
    requires Run(lookup, Loaded(t), si, di).Some?
    requires 0 <= k < |t.rows|
    requires t.rows[k][PythonIndex(si, |t.headers|)].Str? && t.rows[k][PythonIndex(di, |t.headers|)].Str?
    ensures var out := Run(lookup, Loaded(t), si, di).value;
      var n := |t.headers|;
      out.rows[k][IndexOf(out.headers, DistanceHeader)]
        == DistanceCell(Resolve(lookup, t.rows[k][PythonIndex(si, n)].text, t.rows[k][PythonIndex(di, n)].text))
  {
    ProcessKeepsTable((a: string, b: string) => Resolve(lookup, a, b), t, si, di);
  }
}
