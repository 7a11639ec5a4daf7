/**
 * The data frame the dashboard works on: an ordered list of column labels
 * and rows of cells. A cell is missing (`NaN`/`NaT`), a piece of text, or a
 * timestamp produced by date parsing.
 */
module Tables {
  import opened Wrappers

  /** A point in time: a calendar day (counted from a fixed epoch) and a second within it. */
  datatype Moment = Moment(day: int, secondOfDay: nat)

  datatype Cell = Null | Text(text: string) | Time(moment: Moment)

  /** The position of the first label that `p` accepts, if any. */
  function FirstWhere(names: seq<string>, p: string -> bool): (r: Option<nat>)
    ensures r.Some? ==> r.value < |names| && p(names[r.value])
    ensures r.Some? ==> forall j :: 0 <= j < r.value ==> !p(names[j])
    ensures r.None? ==> forall j :: 0 <= j < |names| ==> !p(names[j])
  {
    if names == [] then None
    else if p(names[0]) then Some(0)
    else
      var tail := names[1..];
      match FirstWhere(tail, p)
      case None =>
        assert forall j :: 1 <= j < |names| ==> names[j] == tail[j - 1];
        None
      case Some(i) =>
        assert forall j :: 1 <= j <= i + 1 ==> names[j] == tail[j - 1];
        Some(i + 1)
  }

  /** The first position of `name` among the labels, if it is there. */
  function IndexOfName(names: seq<string>, name: string): (r: Option<nat>)
    ensures r.Some? ==> r.value < |names| && names[r.value] == name && name !in names[..r.value]
    ensures r.None? <==> name !in names
  {
    var r := FirstWhere(names, x => x == name);
    if r.Some? then
      assert forall j :: 0 <= j < r.value ==> names[..r.value][j] == names[j];
      r
    else
      r
  }

  /** `rename(columns=m)`: each label that is a key of `m` is replaced by its value. */
  function RenameLabel(m: map<string, string>, name: string): string {
    if name in m then m[name] else name
  }

  function Renamed(names: seq<string>, m: map<string, string>): (r: seq<string>)
    ensures |r| == |names|
  {
    seq(|names|, i requires 0 <= i < |names| => RenameLabel(m, names[i]))
  }

  /** A table: column labels and rows of cells. */
  datatype Table = Table(columns: seq<string>, rows: seq<seq<Cell>>) {

    /** Every row has one cell per column. */
    predicate WellFormed() {
      forall i :: 0 <= i < |rows| ==> |rows[i]| == |columns|
    }

    /** `DataFrame.empty`: no rows or no columns. */
    predicate IsEmpty() {
      |rows| == 0 || |columns| == 0
    }

    /** The cells of column `j`, top to bottom (`df[name]`). */
    function Cells(j: nat): (cs: seq<Cell>)
      requires WellFormed() && j < |columns|
      ensures |cs| == |rows|
      ensures forall i :: 0 <= i < |rows| ==> cs[i] == rows[i][j]
    {
      seq(|rows|, i requires 0 <= i < |rows| => rows[i][j])
    }

    /** The cells of the column labelled `name` (its first occurrence). */
    function Column(name: string): (cs: seq<Cell>)
      requires WellFormed() && name in columns
      ensures |cs| == |rows|
    {
      Cells(IndexOfName(columns, name).value)
    }
  }

  // -----------------------------------------------------------------------
  // Date parsing: `pd.to_datetime(df[col], errors='coerce')`
  // -----------------------------------------------------------------------

  /**
   * One cell through `to_datetime` with `errors='coerce'`, given the parser
   * `parse` for text: text that parses becomes a timestamp, text that does
   * not becomes missing, and missing cells and timestamps stay as they are.
   */
  function ParseCell(c: Cell, parse: string -> Option<Moment>): (d: Cell)
    ensures !d.Text?
    ensures !c.Text? ==> d == c
    ensures c.Text? && parse(c.text).None? ==> d == Null
    ensures c.Text? && parse(c.text).Some? ==> d == Time(parse(c.text).value)
  {
    match c
    case Text(s) =>
      (match parse(s)
       case Some(m) => Time(m)
       case None => Null)
    case _ => c
  }

  /** Every row has more than `j` cells. */
  ghost predicate HasColumn(rows: seq<seq<Cell>>, j: nat) {
    forall i :: 0 <= i < |rows| ==> j < |rows[i]|
  }

  /** No cell of column `j` is unparsed text. */
  ghost predicate ColumnParsed(rows: seq<seq<Cell>>, j: nat)
    requires HasColumn(rows, j)
  {
    forall i :: 0 <= i < |rows| ==> !rows[i][j].Text?
  }

  /** `df[col] = pd.to_datetime(df[col], errors='coerce')` for the column at position `j`. */
  function ParseColumn(rows: seq<seq<Cell>>, j: nat, parse: string -> Option<Moment>): (r: seq<seq<Cell>>)
    requires HasColumn(rows, j)
    ensures |r| == |rows|
    ensures forall i :: 0 <= i < |rows| ==> |r[i]| == |rows[i]|
    ensures forall i :: 0 <= i < |rows| ==> r[i][j] == ParseCell(rows[i][j], parse)
    ensures forall i, k :: 0 <= i < |rows| && 0 <= k < |rows[i]| && k != j ==> r[i][k] == rows[i][k]
  {
    seq(|rows|, i requires 0 <= i < |rows| => rows[i][j := ParseCell(rows[i][j], parse)])
  }

  /** After parsing, the column holds no text; parsing a parsed column changes nothing. */
  lemma ParseColumnSettles(rows: seq<seq<Cell>>, j: nat, parse: string -> Option<Moment>)
    requires HasColumn(rows, j)
    ensures HasColumn(ParseColumn(rows, j, parse), j)
    ensures ColumnParsed(ParseColumn(rows, j, parse), j)
    ensures ColumnParsed(rows, j) ==> ParseColumn(rows, j, parse) == rows
  {
    var r := ParseColumn(rows, j, parse);
    if ColumnParsed(rows, j) {
      forall i | 0 <= i < |rows| ensures r[i] == rows[i] {
      }
    }
  }

  // -----------------------------------------------------------------------
  // The mutable frame
  // -----------------------------------------------------------------------

  /**
   * A pandas `DataFrame` as the dashboard's functions see it. The labels are
   * an immutable `Index` in pandas, so `df.columns = ...` replaces the whole
   * sequence; `df[col] = ...` replaces the rows.
   */
  class Frame {
    var columns: seq<string>
    var rows: seq<seq<Cell>>

    /** The frame's contents as a value. */
    function Value(): Table
      reads this
    {
      Table(columns, rows)
    }

    ghost predicate Valid()
      reads this
    {
      Value().WellFormed()
    }

    constructor (columns: seq<string>, rows: seq<seq<Cell>>)
      ensures Value() == Table(columns, rows)
    {
      this.columns := columns;
      this.rows := rows;
    }

    /** `df.rename(columns=m)`: a new frame with relabelled columns and the same rows; `df` is not changed. */
    method Rename(m: map<string, string>) returns (g: Frame)
      requires Valid()
      ensures fresh(g) && g.Valid()
      ensures g.Value() == Table(Renamed(columns, m), rows)
    {
      g := new Frame(Renamed(columns, m), rows);
    }
  }
}
