/**
 * The figures the two dashboards show (detention_dashboard_app.py,
 * `render_detentions_dashboard` and `render_oncall_dashboard`): headline
 * counts, the Year and daily breakdowns of detentions, and the type and
 * daily breakdowns of on-call incidents. Rates are kept as a numerator and a
 * denominator; nothing is rendered.
 */
module Dashboard {
  import opened Wrappers
  import opened Text
  import opened Tables
  import opened Normalizer
  import opened Grouping

  // -----------------------------------------------------------------------
  // Cell tests
  // -----------------------------------------------------------------------

  /** Line 159: the text contains `present` in any case; a missing cell does not. */
  function IsPresentLoose(c: Cell): (b: bool)
    ensures b <==> c.Text? && exists j :: OccursAt(Lower(c.text), "present", j)
  {
    match c
    case Text(s) => ContainsOccurs(Lower(s), "present"); Contains(Lower(s), "present")
    case _ => false
  }

  /** Lines 172 and 198: the cell is exactly `Present`, which the loose test also accepts. */
  function IsPresentExact(c: Cell): (b: bool)
    ensures b <==> c.Text? && c.text == "Present"
    ensures b ==> IsPresentLoose(c)
  {
    if c == Text("Present") then
      assert Lower("Present") == "present";
      OccursAtContains("present", "present", 0);
      true
    else false
  }

  /** Line 226: the text contains `Resolved`, case-sensitively. */
  function IsResolved(c: Cell): (b: bool)
    ensures b <==> c.Text? && exists j :: OccursAt(c.text, "Resolved", j)
  {
    match c
    case Text(s) => ContainsOccurs(s, "Resolved"); Contains(s, "Resolved")
    case _ => false
  }

  /** Line 227: the text contains `Unresolved`, case-sensitively. */
  function IsUnresolved(c: Cell): (b: bool)
    ensures b <==> c.Text? && exists j :: OccursAt(c.text, "Unresolved", j)
  {
    match c
    case Text(s) => ContainsOccurs(s, "Unresolved"); Contains(s, "Unresolved")
    case _ => false
  }

  /** What `count` counts: a cell that is not missing. */
  predicate NonNull(c: Cell) {
    !c.Null?
  }

  predicate IsNull(c: Cell) {
    c.Null?
  }

  predicate IsText(c: Cell) {
    c.Text?
  }

  predicate IsTime(c: Cell) {
    c.Time?
  }

  /** The test applied to each cell of a column. */
  function Mask(cells: seq<Cell>, p: Cell -> bool): (m: seq<bool>)
    ensures |m| == |cells|
    ensures forall i :: 0 <= i < |cells| ==> m[i] == p(cells[i])
  {
    seq(|cells|, i requires 0 <= i < |cells| => p(cells[i]))
  }

  /** The number of cells that pass the test. */
  function CountIf(cells: seq<Cell>, p: Cell -> bool): (n: nat)
    ensures n <= |cells|
  {
    Count(Mask(cells, p))
  }

  /** Fewer cells are exactly `Present` than loosely present. */
  lemma ExactCountWithinLoose(cells: seq<Cell>)
    ensures CountIf(cells, IsPresentExact) <= CountIf(cells, IsPresentLoose)
  {
    CountMonotone(Mask(cells, IsPresentExact), Mask(cells, IsPresentLoose));
  }

  // -----------------------------------------------------------------------
  // Group keys
  // -----------------------------------------------------------------------

  /** A column as `groupby` keys: a text value is a key, anything else is dropped. */
  function TextKeys(cells: seq<Cell>): (ks: seq<Option<string>>)
    ensures |ks| == |cells|
    ensures forall i :: 0 <= i < |cells| ==> (ks[i].Some? <==> cells[i].Text?)
    ensures forall i :: 0 <= i < |cells| && cells[i].Text? ==> ks[i] == Some(cells[i].text)
  {
    seq(|cells|, i requires 0 <= i < |cells| => if cells[i].Text? then Some(cells[i].text) else None)
  }

  /** `.dt.date` after `dropna`: the calendar day of a timestamp; a missing date has no key. */
  function DayKeys(cells: seq<Cell>): (ks: seq<Option<int>>)
    ensures |ks| == |cells|
    ensures forall i :: 0 <= i < |cells| ==> (ks[i].Some? <==> cells[i].Time?)
    ensures forall i :: 0 <= i < |cells| && cells[i].Time? ==> ks[i] == Some(cells[i].moment.day)
  {
    seq(|cells|, i requires 0 <= i < |cells| => if cells[i].Time? then Some(cells[i].moment.day) else None)
  }

  predicate DayLe(a: int, b: int) {
    a <= b
  }

  /** Python's string comparison and the order of days are total orders. */
  lemma KeyOrders()
    ensures TotalOrder(LexLe)
    ensures TotalOrder(DayLe)
  {
    forall a: string, b: string ensures LexLe(a, b) || LexLe(b, a) {
      LexLeTotal(a, b);
    }
    forall a: string, b: string ensures LexLe(a, b) && LexLe(b, a) ==> a == b {
      LexLeAntisymmetric(a, b);
    }
    forall a: string, b: string, c: string ensures LexLe(a, b) && LexLe(b, c) ==> LexLe(a, c) {
      LexLeTransitive(a, b, c);
    }
  }

  // -----------------------------------------------------------------------
  // Detentions
  // -----------------------------------------------------------------------

  /** A rate as numerator over denominator. */
  datatype Rate = Rate(num: nat, den: nat)

  /** The three headline metrics. */
  datatype Headline = Headline(total: nat, attended: nat, rate: Rate)

  /** One row of a breakdown: the key, the `Issued` count and the `Attended` count. */
  datatype Group<K> = Group(key: K, issued: nat, attended: nat)

  /** `Attended / Issued` for one group; a group with nothing issued has no rate. */
  function GroupRate<K>(g: Group<K>): (r: Option<Rate>)
    ensures r.Some? <==> g.issued > 0
    ensures r.Some? ==> r.value.num == g.attended && r.value.den == g.issued
  {
    if g.issued == 0 then None else Some(Rate(g.attended, g.issued))
  }

  /** Lines 156-162: rows, loosely present attendances, and their ratio (0 for no rows). */
  function DetentionHeadline(t: Table): (h: Headline)
    requires t.WellFormed()
    ensures h.total == |t.rows| && h.attended <= h.total
    ensures AttendanceColumn !in t.columns ==> h.attended == 0
    ensures AttendanceColumn in t.columns ==> h.attended == CountIf(t.Column(AttendanceColumn), IsPresentLoose)
    ensures h.rate.den > 0 && h.rate.num <= h.rate.den
    ensures h.total > 0 ==> h.rate == Rate(h.attended, h.total)
    ensures h.total == 0 ==> h.rate == Rate(0, 1)
  {
    var total := |t.rows|;
    var attended := if AttendanceColumn in t.columns then CountIf(t.Column(AttendanceColumn), IsPresentLoose) else 0;
    Headline(total, attended, if total > 0 then Rate(attended, total) else Rate(0, 1))
  }

  /**
   * `groupby(key).agg(Issued=('Student', 'count'), Attended=(..., == 'Present'))`:
   * one group per present key, ascending.
   */
  function Breakdown<K(==,!new)>(keys: seq<Option<K>>, students: seq<Cell>, attendance: seq<Cell>,
                                 le: (K, K) -> bool): (gs: seq<Group<K>>)
    requires |keys| == |students| == |attendance| && TotalOrder(le)
    ensures var ks := GroupKeys(keys, le);
            && |gs| == |ks|
            && forall i :: 0 <= i < |gs| ==>
                 gs[i] == Group(ks[i], Tally(keys, Mask(students, NonNull), ks[i]),
                                Tally(keys, Mask(attendance, IsPresentExact), ks[i]))
  {
    var ks := GroupKeys(keys, le);
    seq(|ks|, i requires 0 <= i < |ks| =>
      Group(ks[i], Tally(keys, Mask(students, NonNull), ks[i]), Tally(keys, Mask(attendance, IsPresentExact), ks[i])))
  }

  // A group carries two counts, so each has its own sum; `SumCounts` is the
  // one-count sum over the buckets of `value_counts`.

  function SumIssued<K>(gs: seq<Group<K>>): nat {
    if gs == [] then 0 else gs[0].issued + SumIssued(gs[1..])
  }

  function SumAttended<K>(gs: seq<Group<K>>): nat {
    if gs == [] then 0 else gs[0].attended + SumAttended(gs[1..])
  }

  /** The group keys of a breakdown. */
  function GroupKeysOf<K>(gs: seq<Group<K>>): (ks: seq<K>)
    ensures |ks| == |gs| && forall i :: 0 <= i < |gs| ==> ks[i] == gs[i].key
  {
    seq(|gs|, i requires 0 <= i < |gs| => gs[i].key)
  }

  /** Groups that carry the tallies of their keys add up to the sums of those tallies. */
  lemma {:induction false} GroupSumsAreTallies<K>(gs: seq<Group<K>>, ks: seq<K>, keys: seq<Option<K>>,
                                                  issued: seq<bool>, attended: seq<bool>)
    requires |keys| == |issued| == |attended| && |gs| == |ks|
    requires forall i :: 0 <= i < |gs| ==> gs[i] == Group(ks[i], Tally(keys, issued, ks[i]), Tally(keys, attended, ks[i]))
    ensures SumIssued(gs) == SumTallies(keys, issued, ks)
    ensures SumAttended(gs) == SumTallies(keys, attended, ks)
  {
    if gs != [] {
      assert gs[0] == Group(ks[0], Tally(keys, issued, ks[0]), Tally(keys, attended, ks[0]));
      GroupSumsAreTallies(gs[1..], ks[1..], keys, issued, attended);
    }
  }

  /**
   * Summed over the groups, `Issued` counts the rows with a key and a
   * student, and `Attended` the rows with a key marked exactly `Present`.
   */
  lemma BreakdownSums<K(!new)>(keys: seq<Option<K>>, students: seq<Cell>, attendance: seq<Cell>, le: (K, K) -> bool)
    requires |keys| == |students| == |attendance| && TotalOrder(le)
    ensures var gs := Breakdown(keys, students, attendance, le);
            && SumIssued(gs) == Flagged(keys, Mask(students, NonNull))
            && SumAttended(gs) == Flagged(keys, Mask(attendance, IsPresentExact))
            && SumAttended(gs) <= CountIf(attendance, IsPresentLoose)
  {
    var gs := Breakdown(keys, students, attendance, le);
    GroupSumsAreTallies(gs, GroupKeys(keys, le), keys, Mask(students, NonNull), Mask(attendance, IsPresentExact));
    GroupTalliesSum(keys, Mask(students, NonNull), le);
    GroupTalliesSum(keys, Mask(attendance, IsPresentExact), le);
    ExactCountWithinLoose(attendance);
  }

  /** A group's `Issued` leaves out exactly its rows without a student. */
  lemma IssuedSkipsMissingStudents<K(!new)>(keys: seq<Option<K>>, students: seq<Cell>, attendance: seq<Cell>,
                                           le: (K, K) -> bool, i: nat)
    requires |keys| == |students| == |attendance| && TotalOrder(le)
    requires i < |Breakdown(keys, students, attendance, le)|
    ensures var g := Breakdown(keys, students, attendance, le)[i];
            g.issued + Tally(keys, Mask(students, IsNull), g.key) == Tally(keys, AllSet(|keys|), g.key)
  {
    var g := Breakdown(keys, students, attendance, le)[i];
    TallySplit(keys, Mask(students, NonNull), g.key);
    assert Negated(Mask(students, NonNull)) == Mask(students, IsNull);
  }

  /** The detentions figures; the breakdowns are absent when their key column is. */
  datatype DetentionView = DetentionView(
    headline: Headline,
    years: Option<seq<Group<string>>>,
    daily: Option<seq<Group<int>>>)

  /** The KeyError cases of lines 172 and 198 are the callers' to rule out. */
  predicate DetentionColumnsSuffice(t: Table) {
    !t.IsEmpty() && ("Year" in t.columns || "Issued Date" in t.columns) ==>
      "Student" in t.columns && AttendanceColumn in t.columns
  }

  /** `render_detentions_dashboard(df)`: nothing for an empty frame (line 152), otherwise the three parts. */
  function DetentionDashboard(t: Table): (v: Option<DetentionView>)
    requires t.WellFormed() && DetentionColumnsSuffice(t)
    ensures v.None? <==> t.IsEmpty()
    ensures v.Some? ==> v.value.headline == DetentionHeadline(t) && v.value.headline.total >= 1
    ensures v.Some? ==> (v.value.years.Some? <==> "Year" in t.columns)
    ensures v.Some? ==> (v.value.daily.Some? <==> "Issued Date" in t.columns)
    ensures v.Some? && "Year" in t.columns ==>
              (KeyOrders(); v.value.years.value == Breakdown(TextKeys(t.Column("Year")), t.Column("Student"), t.Column(AttendanceColumn), LexLe))
    ensures v.Some? && "Issued Date" in t.columns ==>
              (KeyOrders(); v.value.daily.value == Breakdown(DayKeys(t.Column("Issued Date")), t.Column("Student"), t.Column(AttendanceColumn), DayLe))
  {
    if t.IsEmpty() then None
    else
      KeyOrders();
      var years :=
        if "Year" in t.columns then
          Some(Breakdown(TextKeys(t.Column("Year")), t.Column("Student"), t.Column(AttendanceColumn), LexLe))
        else None;
      var daily :=
        if "Issued Date" in t.columns then
          Some(Breakdown(DayKeys(t.Column("Issued Date")), t.Column("Student"), t.Column(AttendanceColumn), DayLe))
        else None;
      Some(DetentionView(DetentionHeadline(t), years, daily))
  }

  /**
   * Lines 159 and 172: the exact `Present` attendances of the Year groups
   * never add up to more than the headline's loose count; the groups' `Issued`
   * adds up to the rows that have both a Year and a student.
   */
  lemma YearGroupsWithinHeadline(t: Table)
    requires t.WellFormed() && DetentionColumnsSuffice(t)
    requires !t.IsEmpty() && "Year" in t.columns
    ensures var v := DetentionDashboard(t).value;
            && SumAttended(v.years.value) <= v.headline.attended
            && SumIssued(v.years.value) == Flagged(TextKeys(t.Column("Year")), Mask(t.Column("Student"), NonNull))
  {
    KeyOrders();
    BreakdownSums(TextKeys(t.Column("Year")), t.Column("Student"), t.Column(AttendanceColumn), LexLe);
  }

  /** The same bound for the daily groups (lines 159 and 198). */
  lemma DailyGroupsWithinHeadline(t: Table)
    requires t.WellFormed() && DetentionColumnsSuffice(t)
    requires !t.IsEmpty() && "Issued Date" in t.columns
    ensures var v := DetentionDashboard(t).value;
            && SumAttended(v.daily.value) <= v.headline.attended
            && SumIssued(v.daily.value) == Flagged(DayKeys(t.Column("Issued Date")), Mask(t.Column("Student"), NonNull))
  {
    KeyOrders();
    BreakdownSums(DayKeys(t.Column("Issued Date")), t.Column("Student"), t.Column(AttendanceColumn), DayLe);
  }

  /** The present text keys are the text values of the column. */
  lemma TextKeysPresent(cells: seq<Cell>)
    ensures forall y :: Some(y) in TextKeys(cells) <==> Text(y) in cells
  {
    var keys := TextKeys(cells);
    forall y | Text(y) in cells ensures Some(y) in keys {
      var i :| 0 <= i < |cells| && cells[i] == Text(y);
      assert keys[i] == Some(y);
    }
  }

  /** The present day keys are the days of the column's timestamps. */
  lemma DayKeysPresent(cells: seq<Cell>)
    ensures forall d :: Some(d) in DayKeys(cells) <==> exists m :: Time(m) in cells && m.day == d
  {
    var keys := DayKeys(cells);
    forall d ensures Some(d) in keys <==> exists m :: Time(m) in cells && m.day == d {
      if Some(d) in keys {
        var i :| 0 <= i < |keys| && keys[i] == Some(d);
        assert Time(cells[i].moment) in cells;
      }
      if exists m :: Time(m) in cells && m.day == d {
        var m :| Time(m) in cells && m.day == d;
        var i :| 0 <= i < |cells| && cells[i] == Time(m);
        assert keys[i] == Some(d);
      }
    }
  }

  /**
   * Lines 170-174: the Year groups are the text values of the Year column,
   * each once and strictly ascending; rows without one belong to no group.
   */
  lemma YearGroupKeys(t: Table)
    requires t.WellFormed() && DetentionColumnsSuffice(t) && !t.IsEmpty() && "Year" in t.columns
    ensures var ks := GroupKeysOf(DetentionDashboard(t).value.years.value);
            && StrictlyAscending(ks, LexLe)
            && forall y :: y in ks <==> Text(y) in t.Column("Year")
  {
    KeyOrders();
    var cells := t.Column("Year");
    assert GroupKeysOf(DetentionDashboard(t).value.years.value) == GroupKeys(TextKeys(cells), LexLe);
    TextKeysPresent(cells);
  }

  /**
   * Lines 194-200: the daily groups are the days of the issue timestamps,
   * each once and strictly ascending; rows without one belong to no group.
   */
  lemma DailyGroupKeys(t: Table)
    requires t.WellFormed() && DetentionColumnsSuffice(t) && !t.IsEmpty() && "Issued Date" in t.columns
    ensures var ks := GroupKeysOf(DetentionDashboard(t).value.daily.value);
            && StrictlyAscending(ks, DayLe)
            && forall d :: d in ks <==> exists m :: Time(m) in t.Column("Issued Date") && m.day == d
  {
    KeyOrders();
    var cells := t.Column("Issued Date");
    assert GroupKeysOf(DetentionDashboard(t).value.daily.value) == GroupKeys(DayKeys(cells), DayLe);
    DayKeysPresent(cells);
  }

  /**
   * After `prepare_detentions`, the issue dates are parsed: a row drops out
   * of the daily groups exactly when its date is missing or did not parse.
   */
  lemma PreparedIssueDatesHaveKeys(t: Table, parse: string -> Option<Moment>)
    requires t.WellFormed()
    requires "Issued Date" in NormalizeDetentions(t, parse).columns
    ensures var n := NormalizeDetentions(t, parse);
            var cells := n.Column("Issued Date");
            forall i :: 0 <= i < |cells| ==> (DayKeys(cells)[i].None? <==> cells[i] == Null)
  {
    var n := NormalizeDetentions(t, parse);
    ParseDateColumnsParsed(n.columns, t.rows, DetentionDateColumns, parse);
    assert "Issued Date" in DetentionDateColumns;
  }

  /** One Year 7 row without a student but marked `Present` makes one group. */
  lemma LoneYearSevenGroup()
    ensures TotalOrder(LexLe)
    ensures Breakdown([Some("7")], [Null], [Text("Present")], LexLe) == [Group("7", 0, 1)]
  {
    KeyOrders();
    var keys := [Some("7")];
    assert keys[..0] == [];
    assert GroupKeys(keys, LexLe) == ["7"];
    assert Mask([Null], NonNull) == [false];
    assert Mask([Text("Present")], IsPresentExact) == [true];
    assert Tally(keys, [false], "7") == 0;
    assert Tally(keys, [true], "7") == 1;
  }

  /**
   * Attendance and issue are counted from different columns, so a group can
   * have more `Attended` than `Issued`: a Year 7 row with no student marked
   * `Present` gives a group with nothing issued, one attended and no rate.
   */
  lemma AttendedCanExceedIssued()
    ensures var t := Table(["Year", "Student", AttendanceColumn], [[Text("7"), Null, Text("Present")]]);
            && t.WellFormed() && DetentionColumnsSuffice(t)
            && DetentionDashboard(t).value.years == Some([Group("7", 0, 1)])
            && GroupRate(Group("7", 0, 1)) == None
  {
    var t := Table(["Year", "Student", AttendanceColumn], [[Text("7"), Null, Text("Present")]]);
    assert IndexOfName(t.columns, "Year") == Some(0);
    assert IndexOfName(t.columns, "Student") == Some(1);
    assert IndexOfName(t.columns, AttendanceColumn) == Some(2);
    assert t.Column("Year") == [Text("7")];
    assert t.Column("Student") == [Null];
    assert t.Column(AttendanceColumn) == [Text("Present")];
    assert TextKeys([Text("7")]) == [Some("7")];
    LoneYearSevenGroup();
  }

  // -----------------------------------------------------------------------
  // On-call incidents
  // -----------------------------------------------------------------------

  datatype OncallHeadline = OncallHeadline(total: nat, resolved: nat, unresolved: nat)

  /** The on-call figures; the breakdowns are absent when their column is. */
  datatype OncallView = OncallView(
    headline: OncallHeadline,
    types: Option<seq<Bucket<string>>>,
    daily: Option<seq<Bucket<int>>>)

  /** Lines 225-227: rows, and the rows whose status contains `Resolved` / `Unresolved`. */
  function OncallCounts(t: Table): (h: OncallHeadline)
    requires t.WellFormed() && "Status" in t.columns
    ensures h.total == |t.rows| && h.resolved <= h.total && h.unresolved <= h.total
    ensures h.resolved == CountIf(t.Column("Status"), IsResolved)
    ensures h.unresolved == CountIf(t.Column("Status"), IsUnresolved)
  {
    OncallHeadline(|t.rows|, CountIf(t.Column("Status"), IsResolved), CountIf(t.Column("Status"), IsUnresolved))
  }

  /**
   * Lines 254-259: incidents per day of the timestamp, ascending by day. The
   * buckets are exactly the days of the timestamps, each with the number of
   * its non-missing cells.
   */
  function OncallDaily(cells: seq<Cell>): (bs: seq<Bucket<int>>)
    ensures forall b :: b in bs <==>
              (exists m :: Time(m) in cells && m.day == b.key) && b.count == Tally(DayKeys(cells), Mask(cells, NonNull), b.key)
  {
    KeyOrders();
    DayKeysPresent(cells);
    BucketsMembers(DayKeys(cells), Mask(cells, NonNull), GroupKeys(DayKeys(cells), DayLe));
    Buckets(DayKeys(cells), Mask(cells, NonNull), GroupKeys(DayKeys(cells), DayLe))
  }

  /** The KeyError case of line 226 is the callers' to rule out. */
  predicate OncallColumnsSuffice(t: Table) {
    !t.IsEmpty() ==> "Status" in t.columns
  }

  /** `render_oncall_dashboard(df)`: nothing for an empty frame (line 221), otherwise the three parts. */
  function OncallDashboard(t: Table): (v: Option<OncallView>)
    requires t.WellFormed() && OncallColumnsSuffice(t)
    ensures v.None? <==> t.IsEmpty()
    ensures v.Some? ==> v.value.headline == OncallCounts(t) && v.value.headline.total >= 1
    ensures v.Some? ==> (v.value.types.Some? <==> "Type" in t.columns)
    ensures v.Some? ==> (v.value.daily.Some? <==> "DateTime" in t.columns)
    ensures v.Some? && "Type" in t.columns ==>
              (KeyOrders(); v.value.types.value == ValueCounts(TextKeys(t.Column("Type")), LexLe))
    ensures v.Some? && "DateTime" in t.columns ==> v.value.daily.value == OncallDaily(t.Column("DateTime"))
  {
    if t.IsEmpty() then None
    else
      KeyOrders();
      var types := if "Type" in t.columns then Some(ValueCounts(TextKeys(t.Column("Type")), LexLe)) else None;
      var daily := if "DateTime" in t.columns then Some(OncallDaily(t.Column("DateTime"))) else None;
      Some(OncallView(OncallCounts(t), types, daily))
  }

  /** Case matters: an `Unresolved` status is not counted as resolved. */
  lemma UnresolvedIsNotResolved()
    ensures IsUnresolved(Text("Unresolved")) && !IsResolved(Text("Unresolved"))
  {
    assert OccursAt("Unresolved", "Unresolved", 0);
    forall j ensures !OccursAt("Unresolved", "Resolved", j) {
      if 0 <= j && j + 8 <= 10 {
        assert "Unresolved"[j] != "Resolved"[0];
      }
    }
  }

  /** A `Resolved` status is resolved and not unresolved. */
  lemma ResolvedIsNotUnresolved()
    ensures IsResolved(Text("Resolved")) && !IsUnresolved(Text("Resolved"))
  {
    assert OccursAt("Resolved", "Resolved", 0);
    forall j ensures !OccursAt("Resolved", "Unresolved", j) {
    }
  }

  /** A status that mentions `Unresolved` and later `Resolved` is counted both as resolved and as unresolved. */
  lemma MixedStatusCountsTwice(pre: string, mid: string, post: string)
    ensures var status := pre + "Unresolved" + mid + "Resolved" + post;
            IsResolved(Text(status)) && IsUnresolved(Text(status))
  {
    var status := pre + "Unresolved" + mid + "Resolved" + post;
    OccursIn(pre, "Unresolved", mid + "Resolved" + post);
    assert pre + "Unresolved" + (mid + "Resolved" + post) == status;
    OccursIn(pre + "Unresolved" + mid, "Resolved", post);
  }

  /**
   * Line 235: every incident type with a text value appears once with its
   * number of incidents, at least one; the counts do not increase and add up
   * to the number of rows with a type.
   */
  lemma TypeCountsSpec(t: Table)
    requires t.WellFormed() && OncallColumnsSuffice(t) && !t.IsEmpty() && "Type" in t.columns
    ensures var r := OncallDashboard(t).value.types.value;
            var cells := t.Column("Type");
            && NonIncreasing(r)
            && DistinctKeys(r)
            && (forall b :: b in r <==> Text(b.key) in cells && b.count == Tally(TextKeys(cells), AllSet(|cells|), b.key))
            && (forall b :: b in r ==> b.count >= 1)
            && SumCounts(r) == CountIf(cells, IsText)
  {
    KeyOrders();
    var cells := t.Column("Type");
    var keys := TextKeys(cells);
    ValueCountsSpec(keys, LexLe);
    TextKeysPresent(cells);
    FlaggedIsCount(keys, AllSet(|keys|));
    assert seq(|keys|, i requires 0 <= i < |keys| => keys[i].Some? && AllSet(|keys|)[i]) == Mask(cells, IsText);
  }

  /** Every daily bucket is the day of some timestamp and counts at least one row. */
  lemma OncallDailyMembers(cells: seq<Cell>)
    ensures forall b :: b in OncallDaily(cells) ==> b.count >= 1 && exists m :: Time(m) in cells && m.day == b.key
  {
    KeyOrders();
    var keys := DayKeys(cells);
    var flags := Mask(cells, NonNull);
    var ks := GroupKeys(keys, DayLe);
    var r := OncallDaily(cells);
    forall b | b in r ensures b.count >= 1 && exists m :: Time(m) in cells && m.day == b.key {
      var j :| 0 <= j < |r| && r[j] == b;
      assert b.key in ks;
      var i :| 0 <= i < |keys| && keys[i] == Some(b.key);
      TallyPositive(keys, flags, i);
      assert Time(cells[i].moment) in cells;
    }
  }

  /**
   * Lines 254-259: the days come out strictly ascending, each is the day of
   * some timestamp, each count is positive, and the counts add up to the
   * rows with a timestamp.
   */
  lemma OncallDailySpec(cells: seq<Cell>)
    ensures var r := OncallDaily(cells);
            && StrictlyAscending(seq(|r|, i requires 0 <= i < |r| => r[i].key), DayLe)
            && (forall b :: b in r ==> b.count >= 1 && exists m :: Time(m) in cells && m.day == b.key)
            && (forall m :: Time(m) in cells ==> exists b :: b in r && b.key == m.day)
            && (forall b :: b in r ==> b.count == Tally(DayKeys(cells), Mask(cells, NonNull), b.key))
            && SumCounts(r) == CountIf(cells, IsTime)
  {
    KeyOrders();
    var keys := DayKeys(cells);
    var flags := Mask(cells, NonNull);
    var ks := GroupKeys(keys, DayLe);
    var r := OncallDaily(cells);
    assert seq(|r|, i requires 0 <= i < |r| => r[i].key) == ks;
    OncallDailyMembers(cells);
    SumCountsOfBuckets(keys, flags, ks);
    GroupTalliesSum(keys, flags, DayLe);
    FlaggedIsCount(keys, flags);
    assert seq(|keys|, i requires 0 <= i < |keys| => keys[i].Some? && flags[i]) == Mask(cells, IsTime);
    forall m | Time(m) in cells ensures exists b :: b in r && b.key == m.day {
      assert Bucket(m.day, Tally(keys, flags, m.day)) in r;
    }
  }

  /** After `prepare_oncall`, every present `DateTime` is a timestamp, so the daily counts add up to the non-missing dates. */
  lemma PreparedOncallDailyCountsDates(t: Table, parse: string -> Option<Moment>)
    requires t.WellFormed()
    requires "DateTime" in NormalizeOncall(t, parse).columns
    ensures var n := NormalizeOncall(t, parse);
            SumCounts(OncallDaily(n.Column("DateTime"))) == CountIf(n.Column("DateTime"), NonNull)
  {
    var n := NormalizeOncall(t, parse);
    var cells := n.Column("DateTime");
    ParseDateColumnsParsed(n.columns, t.rows, OncallDateColumns, parse);
    assert "DateTime" in OncallDateColumns;
    OncallDailySpec(cells);
    assert Mask(cells, IsTime) == Mask(cells, NonNull);
  }

  /** An empty frame shows nothing on either dashboard. */
  lemma EmptyShowsNothing(t: Table)
    requires t.WellFormed() && t.IsEmpty()
    ensures DetentionDashboard(t).None? && OncallDashboard(t).None?
  {
  }
}
