/**
 * Schema normalisation of the two datasets (detention_dashboard_app.py,
 * `prepare_detentions` and `prepare_oncall`): column labels are mapped to
 * canonical names and the date columns are parsed.
 */
module Normalizer {
  import opened Wrappers
  import opened Text
  import opened Tables

  // -----------------------------------------------------------------------
  // Constants of the two datasets
  // -----------------------------------------------------------------------

  /** The detentions rename map; every entry but `Reg. Form` maps a label to itself. */
  const DetentionRenames: map<string, string> := map[
    "Student" := "Student",
    "Year" := "Year",
    "Reg. Form" := "Reg Form",
    "House" := "House",
    "Reason" := "Reason",
    "Detention Type" := "Detention Type",
    "Issued Date" := "Issued Date",
    "Issued By" := "Issued By",
    "Detention Date" := "Detention Date",
    "Detention Attendance" := "Detention Attendance"
  ]

  const AttendanceColumn := "Detention Attendance"

  /** The detentions columns parsed as dates, in the order they are parsed. */
  const DetentionDateColumns: seq<string> := ["Issued Date", "Detention Date"]

  /** The on-call rename map. */
  const OncallRenames: map<string, string> := map[
    "Date/Time" := "DateTime",
    "Reported by" := "Reported By",
    "Location" := "Location",
    "Comments" := "Comments",
    "Type" := "Type",
    "Students involved" := "Students",
    "Event" := "Event",
    "Assigned to" := "Assigned To",
    "Status" := "Status"
  ]

  const OncallDateColumns: seq<string> := ["DateTime"]

  // -----------------------------------------------------------------------
  // Column labels
  // -----------------------------------------------------------------------

  /** `df.columns.str.strip()`. */
  function StripAll(names: seq<string>): (r: seq<string>)
    ensures |r| == |names|
    ensures forall i :: 0 <= i < |r| ==> r[i] == Strip(names[i]) && IsStripped(r[i])
  {
    seq(|names|, i requires 0 <= i < |names| => Strip(names[i]))
  }

  /** A label that mentions `attendance` in any case. */
  predicate IsAttendanceCandidate(name: string) {
    Contains(Lower(name), "attendance")
  }

  /** `[c for c in df.columns if 'attendance' in c.lower()]`. */
  function AttendanceCandidates(names: seq<string>): (r: seq<string>)
    ensures forall c :: c in r <==> c in names && IsAttendanceCandidate(c)
  {
    if names == [] then []
    else (if IsAttendanceCandidate(names[0]) then [names[0]] else []) + AttendanceCandidates(names[1..])
  }

  /** The position of the first label that mentions `attendance`, if any. */
  function FirstCandidate(names: seq<string>): (r: Option<nat>)
    ensures r.Some? ==> r.value < |names| && IsAttendanceCandidate(names[r.value])
    ensures r.Some? ==> forall j :: 0 <= j < r.value ==> !IsAttendanceCandidate(names[j])
    ensures r.None? ==> forall j :: 0 <= j < |names| ==> !IsAttendanceCandidate(names[j])
  {
    FirstWhere(names, IsAttendanceCandidate)
  }

  /** The head of the candidate list is the first candidate column. */
  lemma {:induction false} CandidatesHeadIsFirst(names: seq<string>)
    ensures AttendanceCandidates(names) == [] <==> FirstCandidate(names).None?
    ensures AttendanceCandidates(names) != [] ==>
              AttendanceCandidates(names)[0] == names[FirstCandidate(names).value]
  {
    if names != [] {
      CandidatesHeadIsFirst(names[1..]);
    }
  }

  /** Lines 115-119: without a `Detention Attendance` column, the first candidate's label is renamed to it. */
  function AttendanceFallback(names: seq<string>): (r: seq<string>)
    ensures |r| == |names|
    ensures AttendanceColumn in names ==> r == names
    ensures forall i :: 0 <= i < |names| ==> r[i] == names[i] || r[i] == AttendanceColumn
    ensures forall i :: 0 <= i < |names| && r[i] != names[i] ==> IsAttendanceCandidate(names[i])
  {
    if AttendanceColumn in names then names
    else
      var candidates := AttendanceCandidates(names);
      if candidates == [] then names
      else Renamed(names, map[candidates[0] := AttendanceColumn])
  }

  /**
   * The detentions labels after lines 112-119: strip, rename, attendance
   * fallback. Every label comes out stripped, as the stripped label under
   * the detentions map or as `Detention Attendance`.
   */
  function DetentionColumns(names: seq<string>): (r: seq<string>)
    ensures |r| == |names|
    ensures forall i :: 0 <= i < |names| ==> IsStripped(r[i])
    ensures forall i :: 0 <= i < |names| ==>
              r[i] == RenameLabel(DetentionRenames, Strip(names[i])) || r[i] == AttendanceColumn
  {
    FallbackOfRenamed(names);
    AttendanceFallback(Renamed(StripAll(names), DetentionRenames))
  }

  /** The three steps of `DetentionColumns`, label by label. */
  lemma FallbackOfRenamed(names: seq<string>)
    ensures var r := AttendanceFallback(Renamed(StripAll(names), DetentionRenames));
            forall i :: 0 <= i < |names| ==>
              && IsStripped(r[i])
              && (r[i] == RenameLabel(DetentionRenames, Strip(names[i])) || r[i] == AttendanceColumn)
  {
    var s := StripAll(names);
    var b := Renamed(s, DetentionRenames);
    RenamedIsCanonical(names);
    assert IsStripped(AttendanceColumn);
    forall i | 0 <= i < |names| ensures b[i] == RenameLabel(DetentionRenames, Strip(names[i])) {
    }
  }

  /** The on-call labels after line 143: exact-match rename, no stripping. */
  function OncallColumns(names: seq<string>): (r: seq<string>)
    ensures |r| == |names|
    ensures forall i :: 0 <= i < |names| && names[i] !in OncallRenames ==> r[i] == names[i]
    ensures forall i :: 0 <= i < |names| && names[i] in OncallRenames ==> r[i] == OncallRenames[names[i]]
  {
    Renamed(names, OncallRenames)
  }

  // -----------------------------------------------------------------------
  // Properties of the detention labels
  // -----------------------------------------------------------------------

  /** The detentions map changes only `Reg. Form`, into `Reg Form`. */
  lemma DetentionRenameOnlyRegForm(s: string)
    ensures RenameLabel(DetentionRenames, s) == (if s == "Reg. Form" then "Reg Form" else s)
  {
  }

  /** Every value of the detentions map is stripped and is mapped to itself. */
  lemma DetentionRenameSettled(s: string)
    requires IsStripped(s)
    ensures IsStripped(RenameLabel(DetentionRenames, s))
    ensures RenameLabel(DetentionRenames, RenameLabel(DetentionRenames, s)) == RenameLabel(DetentionRenames, s)
  {
    DetentionRenameOnlyRegForm(s);
    if s == "Reg. Form" {
      DetentionRenameOnlyRegForm("Reg Form");
      assert IsStripped("Reg Form");
    }
  }

  /**
   * Without an exact `Detention Attendance` label, the first label that
   * mentions `attendance` (and any label equal to it) is renamed to it and
   * nothing else changes; with the exact label present, or no candidate, the
   * labels are returned as they were.
   */
  lemma AttendanceFallbackSpec(names: seq<string>)
    ensures AttendanceColumn in names || FirstCandidate(names).None? ==>
              AttendanceFallback(names) == names
    ensures AttendanceColumn !in names && FirstCandidate(names).Some? ==>
              var i := FirstCandidate(names).value;
              var r := AttendanceFallback(names);
              && r[i] == AttendanceColumn
              && AttendanceColumn in r
              && (forall j :: 0 <= j < |names| && names[j] == names[i] ==> r[j] == AttendanceColumn)
              && (forall j :: 0 <= j < |names| && names[j] != names[i] ==> r[j] == names[j])
  {
    CandidatesHeadIsFirst(names);
    if AttendanceColumn !in names && FirstCandidate(names).Some? {
      var i := FirstCandidate(names).value;
      var r := AttendanceFallback(names);
      assert r == Renamed(names, map[names[i] := AttendanceColumn]);
      forall j | 0 <= j < |names|
        ensures r[j] == if names[j] == names[i] then AttendanceColumn else names[j]
      {
      }
    }
  }

  /** Without a candidate the fallback changes nothing. */
  lemma FallbackWithoutCandidate(names: seq<string>)
    requires forall i :: 0 <= i < |names| ==> !IsAttendanceCandidate(names[i])
    ensures AttendanceFallback(names) == names
  {
    var r := AttendanceFallback(names);
    forall i | 0 <= i < |names| ensures r[i] == names[i] {
    }
  }

  /** With distinct labels, the fallback changes exactly one label. */
  lemma AttendanceFallbackDistinct(names: seq<string>)
    requires forall j, k :: 0 <= j < k < |names| ==> names[j] != names[k]
    requires AttendanceColumn !in names && FirstCandidate(names).Some?
    ensures var i := FirstCandidate(names).value;
            var r := AttendanceFallback(names);
            && r[i] == AttendanceColumn
            && forall j :: 0 <= j < |names| && j != i ==> r[j] == names[j]
  {
    AttendanceFallbackSpec(names);
  }

  /** Renaming stripped labels with a map whose values are stripped leaves them stripped. */
  lemma RenamedKeepsStripped(names: seq<string>, m: map<string, string>)
    requires forall i :: 0 <= i < |names| ==> IsStripped(names[i])
    requires forall k :: k in m ==> IsStripped(m[k])
    ensures forall i :: 0 <= i < |names| ==> IsStripped(Renamed(names, m)[i])
  {
  }

  /** Labels that differ only in surrounding white space normalise to the same labels. */
  lemma DetentionColumnsIgnoreSpace(a: seq<string>, b: seq<string>)
    requires |a| == |b|
    requires forall i :: 0 <= i < |a| ==> Strip(a[i]) == Strip(b[i])
    ensures DetentionColumns(a) == DetentionColumns(b)
  {
    assert StripAll(a) == StripAll(b);
  }

  /** Labels that stripping and the detentions map leave as they are. */
  ghost predicate Canonical(names: seq<string>) {
    forall i :: 0 <= i < |names| ==> IsStripped(names[i]) && RenameLabel(DetentionRenames, names[i]) == names[i]
  }

  lemma RenamedIsCanonical(names: seq<string>)
    ensures Canonical(Renamed(StripAll(names), DetentionRenames))
  {
    var s := StripAll(names);
    var b := Renamed(s, DetentionRenames);
    forall i | 0 <= i < |b|
      ensures IsStripped(b[i]) && RenameLabel(DetentionRenames, b[i]) == b[i]
    {
      DetentionRenameSettled(s[i]);
    }
  }

  lemma FallbackKeepsCanonical(names: seq<string>)
    requires Canonical(names)
    ensures Canonical(AttendanceFallback(names))
  {
    DetentionRenameOnlyRegForm(AttendanceColumn);
    assert IsStripped(AttendanceColumn);
  }

  lemma CanonicalSettled(names: seq<string>)
    requires Canonical(names)
    ensures Renamed(StripAll(names), DetentionRenames) == names
  {
    assert StripAll(names) == names;
  }

  /** The fallback leaves its own result alone. */
  lemma FallbackIdempotent(names: seq<string>)
    ensures AttendanceFallback(AttendanceFallback(names)) == AttendanceFallback(names)
  {
    AttendanceFallbackSpec(names);
  }

  /** Normalising the detentions labels twice gives what normalising once gives. */
  lemma DetentionColumnsIdempotent(names: seq<string>)
    ensures DetentionColumns(DetentionColumns(names)) == DetentionColumns(names)
  {
    var b := Renamed(StripAll(names), DetentionRenames);
    var c := DetentionColumns(names);
    RenamedIsCanonical(names);
    FallbackKeepsCanonical(b);
    CanonicalSettled(c);
    FallbackIdempotent(b);
  }

  // -----------------------------------------------------------------------
  // Properties of the on-call labels
  // -----------------------------------------------------------------------

  /** The on-call map renames exactly four labels, matched exactly. */
  lemma OncallRenameExact(s: string)
    ensures RenameLabel(OncallRenames, s) ==
              if s == "Date/Time" then "DateTime"
              else if s == "Reported by" then "Reported By"
              else if s == "Students involved" then "Students"
              else if s == "Assigned to" then "Assigned To"
              else s
  {
  }

  /** A label with white space at either end is never renamed by the on-call map. */
  lemma OncallRenameNeedsExactLabel(s: string)
    requires !IsStripped(s)
    ensures RenameLabel(OncallRenames, s) == s
  {
    OncallRenameExact(s);
    assert IsStripped("Date/Time") && IsStripped("Reported by");
    assert IsStripped("Students involved") && IsStripped("Assigned to");
  }

  /** The on-call labels keep their number, and renaming them twice is renaming once. */
  lemma OncallColumnsIdempotent(names: seq<string>)
    ensures |OncallColumns(names)| == |names|
    ensures OncallColumns(OncallColumns(names)) == OncallColumns(names)
  {
    var r := OncallColumns(names);
    forall i | 0 <= i < |names| ensures RenameLabel(OncallRenames, r[i]) == r[i] {
      OncallRenameExact(names[i]);
      OncallRenameExact(r[i]);
    }
  }

  /** `Year` is already a canonical detentions label. */
  lemma YearLabelSettled()
    ensures DetentionColumns(["Year"]) == ["Year"]
  {
    var b := Renamed(StripAll(["Year"]), DetentionRenames);
    assert b == ["Year"] by {
      assert IsStripped("Year");
      DetentionRenameOnlyRegForm("Year");
      assert Canonical(["Year"]);
      CanonicalSettled(["Year"]);
    }
    assert !IsAttendanceCandidate("Year") by {
      assert |Lower("Year")| < |"attendance"|;
      ContainsOccurs(Lower("Year"), "attendance");
    }
    FallbackWithoutCandidate(b);
  }

  /** A padded detentions label is stripped before it is renamed. */
  lemma PaddedDetentionLabel()
    ensures DetentionColumns([" Year "]) == ["Year"]
  {
    assert StripAll([" Year "]) == ["Year"] by {
      assert " Year " == " " + "Year" + " ";
      StripPadded("Year");
    }
    assert StripAll(["Year"]) == ["Year"] by {
      assert IsStripped("Year");
    }
    YearLabelSettled();
  }

  /** A padded on-call label is not renamed; the exact label is. */
  lemma PaddedOncallLabel()
    ensures OncallColumns(["Date/Time "]) == ["Date/Time "]
    ensures OncallColumns(["Date/Time"]) == ["DateTime"]
  {
    assert !IsStripped("Date/Time ");
    OncallRenameNeedsExactLabel("Date/Time ");
    OncallRenameExact("Date/Time");
  }

  // -----------------------------------------------------------------------
  // Date columns
  // -----------------------------------------------------------------------

  /** Lines 121-123: each listed column that is present is parsed in turn. */
  function ParseDateColumns(names: seq<string>, rows: seq<seq<Cell>>,
                            dateCols: seq<string>, parse: string -> Option<Moment>): (r: seq<seq<Cell>>)
    requires Table(names, rows).WellFormed()
    ensures Table(names, r).WellFormed() && |r| == |rows|
    decreases |dateCols|
  {
    if dateCols == [] then rows
    else
      var prev := ParseDateColumns(names, rows, dateCols[..|dateCols| - 1], parse);
      match IndexOfName(names, dateCols[|dateCols| - 1])
      case None => prev
      case Some(j) => ParseColumn(prev, j, parse)
  }

  /** One more listed column: the column is parsed if it is present. */
  lemma ParseDateColumnsStep(names: seq<string>, rows: seq<seq<Cell>>,
                             dateCols: seq<string>, k: nat, parse: string -> Option<Moment>)
    requires Table(names, rows).WellFormed() && k < |dateCols|
    ensures var prev := ParseDateColumns(names, rows, dateCols[..k], parse);
            ParseDateColumns(names, rows, dateCols[..k + 1], parse) ==
              match IndexOfName(names, dateCols[k])
              case None => prev
              case Some(j) => ParseColumn(prev, j, parse)
  {
    assert dateCols[..k + 1][..k] == dateCols[..k];
  }

  /**
   * Every listed column that is present ends up parsed, cell by cell, from
   * the original cell; every column whose label is not listed is unchanged.
   */
  lemma {:induction false} ParseDateColumnsSpec(names: seq<string>, rows: seq<seq<Cell>>,
                                                dateCols: seq<string>, parse: string -> Option<Moment>)
    requires Table(names, rows).WellFormed()
    ensures var r := ParseDateColumns(names, rows, dateCols, parse);
            forall d, i | d in dateCols && d in names && 0 <= i < |rows| ::
              var j := IndexOfName(names, d).value;
              r[i][j] == ParseCell(rows[i][j], parse)
    ensures var r := ParseDateColumns(names, rows, dateCols, parse);
            forall i, k | 0 <= i < |rows| && 0 <= k < |names| && names[k] !in dateCols ::
              r[i][k] == rows[i][k]
    decreases |dateCols|
  {
    if dateCols != [] {
      var init := dateCols[..|dateCols| - 1];
      var last := dateCols[|dateCols| - 1];
      ParseDateColumnsSpec(names, rows, init, parse);
      assert forall d :: d in dateCols <==> d in init || d == last;
    }
  }

  /** Parsing columns that are already parsed changes nothing. */
  lemma {:induction false} ParseDateColumnsSettled(names: seq<string>, rows: seq<seq<Cell>>,
                                                   dateCols: seq<string>, parse: string -> Option<Moment>)
    requires Table(names, rows).WellFormed()
    requires forall d | d in dateCols && d in names :: ColumnParsed(rows, IndexOfName(names, d).value)
    ensures ParseDateColumns(names, rows, dateCols, parse) == rows
    decreases |dateCols|
  {
    if dateCols != [] {
      var init := dateCols[..|dateCols| - 1];
      var last := dateCols[|dateCols| - 1];
      ParseDateColumnsSettled(names, rows, init, parse);
      if last in names {
        ParseColumnSettles(rows, IndexOfName(names, last).value, parse);
      }
    }
  }

  /** After parsing, no listed column that is present holds unparsed text. */
  lemma ParseDateColumnsParsed(names: seq<string>, rows: seq<seq<Cell>>,
                               dateCols: seq<string>, parse: string -> Option<Moment>)
    requires Table(names, rows).WellFormed()
    ensures var r := ParseDateColumns(names, rows, dateCols, parse);
            forall d | d in dateCols && d in names :: ColumnParsed(r, IndexOfName(names, d).value)
  {
    ParseDateColumnsSpec(names, rows, dateCols, parse);
  }

  // -----------------------------------------------------------------------
  // Whole tables
  // -----------------------------------------------------------------------

  /** The table `prepare_detentions` returns. */
  function NormalizeDetentions(t: Table, parse: string -> Option<Moment>): (r: Table)
    requires t.WellFormed()
    ensures r.WellFormed() && |r.rows| == |t.rows|
  {
    var names := DetentionColumns(t.columns);
    Table(names, ParseDateColumns(names, t.rows, DetentionDateColumns, parse))
  }

  /** The table `prepare_oncall` returns. */
  function NormalizeOncall(t: Table, parse: string -> Option<Moment>): (r: Table)
    requires t.WellFormed()
    ensures r.WellFormed() && |r.rows| == |t.rows|
  {
    var names := OncallColumns(t.columns);
    Table(names, ParseDateColumns(names, t.rows, OncallDateColumns, parse))
  }

  /** Preparing a prepared detentions table gives the same table. */
  lemma NormalizeDetentionsIdempotent(t: Table, parse: string -> Option<Moment>)
    requires t.WellFormed()
    ensures NormalizeDetentions(NormalizeDetentions(t, parse), parse) == NormalizeDetentions(t, parse)
  {
    var once := NormalizeDetentions(t, parse);
    DetentionColumnsIdempotent(t.columns);
    ParseDateColumnsParsed(once.columns, t.rows, DetentionDateColumns, parse);
    ParseDateColumnsSettled(once.columns, once.rows, DetentionDateColumns, parse);
  }

  /** Preparing a prepared on-call table gives the same table. */
  lemma NormalizeOncallIdempotent(t: Table, parse: string -> Option<Moment>)
    requires t.WellFormed()
    ensures NormalizeOncall(NormalizeOncall(t, parse), parse) == NormalizeOncall(t, parse)
  {
    var once := NormalizeOncall(t, parse);
    OncallColumnsIdempotent(t.columns);
    ParseDateColumnsParsed(once.columns, t.rows, OncallDateColumns, parse);
    ParseDateColumnsSettled(once.columns, once.rows, OncallDateColumns, parse);
  }

  // -----------------------------------------------------------------------
  // The two procedures
  // -----------------------------------------------------------------------

  /**
   * `prepare_detentions(df)`. Line 112 strips the labels of the caller's
   * frame in place; `rename` then works on a new frame, which gets the
   * attendance fallback and the parsed dates and is returned.
   */
  method PrepareDetentions(df: Frame, parse: string -> Option<Moment>) returns (out: Frame)
    requires df.Valid()
    modifies df
    ensures df.columns == StripAll(old(df.columns)) && df.rows == old(df.rows)
    ensures fresh(out) && out.Valid()
    ensures out.Value() == NormalizeDetentions(old(df.Value()), parse)
  {
    df.columns := StripAll(df.columns);
    out := df.Rename(DetentionRenames);
    out := FallBackToAttendance(out);
    assert out.columns == DetentionColumns(old(df.columns));
    ParseDates(out, DetentionDateColumns, parse);
  }

  /**
   * Lines 115-119 on the frame `f`: with a `Detention Attendance` column or
   * no candidate, `f` itself; otherwise a new frame with the first
   * candidate's label renamed. The rows are kept either way.
   */
  method FallBackToAttendance(f: Frame) returns (g: Frame)
    requires f.Valid()
    ensures g == f || fresh(g)
    ensures g.Valid() && g.Value() == Table(AttendanceFallback(f.columns), f.rows)
  {
    g := f;
    if AttendanceColumn !in f.columns {
      var candidates := AttendanceCandidates(f.columns);
      if candidates != [] {
        g := f.Rename(map[candidates[0] := AttendanceColumn]);
      }
    }
  }

  /**
   * The loop `for col in [...]: if col in df.columns: df[col] = pd.to_datetime(...)`
   * on the frame `f`: its labels stay, its rows become the parsed rows.
   */
  method ParseDates(f: Frame, dateCols: seq<string>, parse: string -> Option<Moment>)
    requires f.Valid()
    modifies f
    ensures f.columns == old(f.columns)
    ensures f.rows == ParseDateColumns(f.columns, old(f.rows), dateCols, parse)
  {
    ghost var names := f.columns;
    ghost var rows := f.rows;
    assert dateCols[..0] == [];
    var k := 0;
    while k < |dateCols|
      invariant 0 <= k <= |dateCols|
      invariant f.columns == names
      invariant f.rows == ParseDateColumns(names, rows, dateCols[..k], parse)
    {
      ParseDateColumnsStep(names, rows, dateCols, k, parse);
      var j := IndexOfName(f.columns, dateCols[k]);
      if j.Some? {
        f.rows := ParseColumn(f.rows, j.value, parse);
      }
      k := k + 1;
    }
    assert dateCols[..k] == dateCols;
  }

  /** `prepare_oncall(df)`: rename into a new frame and parse its `DateTime` column; `df` is not changed. */
  method PrepareOncall(df: Frame, parse: string -> Option<Moment>) returns (out: Frame)
    requires df.Valid()
    ensures fresh(out) && out.Valid()
    ensures out.Value() == NormalizeOncall(df.Value(), parse)
  {
    out := df.Rename(OncallRenames);
    assert OncallDateColumns[..0] == [];
    match IndexOfName(out.columns, "DateTime")
    case Some(j) =>
      out.rows := ParseColumn(out.rows, j, parse);
    case None =>
  }
}
