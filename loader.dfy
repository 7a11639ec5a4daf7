/**
 * Which reader the dashboard hands its input to (detention_dashboard_app.py,
 * `load_data_from_file` and `load_data_from_url`). The reading itself
 * (`pd.read_csv`, `pd.read_excel`, the network fetch) is not modelled: a
 * load is described by the reader it would call and the name or URL it
 * would call it with.
 */
module Loader {
  import opened Wrappers
  import opened Text

  /** The outcome of choosing a reader. */
  datatype Source =
    | NoData                   // nothing to load: the function returns `None` at once
    | Unsupported              // the "Unsupported file format" error
    | Csv(target: string)      // `pd.read_csv(target)`
    | Excel(target: string)    // `pd.read_excel(target)`

  /** The lower-cased name ends in `.xlsx` or `.xls`. */
  predicate IsExcelName(lower: string) {
    EndsWith(lower, ".xlsx") || EndsWith(lower, ".xls")
  }

  // ---------------------------------------------------------------------
  // Uploaded files
  // ---------------------------------------------------------------------

  /** `load_data_from_file`: the reader is chosen by the file name's suffix, ignoring case. */
  function LoadFromFile(name: Option<string>): (r: Source)
    ensures r.NoData? <==> name.None?
    ensures (r.Csv? || r.Excel?) ==> name == Some(r.target)
  {
    match name
    case None => NoData
    case Some(n) =>
      var lower := Lower(n);
      if EndsWith(lower, ".csv") then Csv(n)
      else if IsExcelName(lower) then Excel(n)
      else Unsupported
  }

  // ---------------------------------------------------------------------
  // File extensions, the suffix tests stated independently
  // ---------------------------------------------------------------------

  /** The position of the last `c` in `s`, if any. */
  function LastIndexOf(s: string, c: char): (r: Option<nat>)
    ensures r.Some? ==> r.value < |s| && s[r.value] == c
    ensures r.Some? ==> forall k :: r.value < k < |s| ==> s[k] != c
    ensures r.None? ==> c !in s
  {
    if s == [] then None
    else if s[|s| - 1] == c then Some(|s| - 1)
    else
      var r := LastIndexOf(s[..|s| - 1], c);
      assert s == s[..|s| - 1] + [s[|s| - 1]];
      r
  }

  /** The text after the last `.` of a name, if it has one. */
  function Extension(name: string): Option<string> {
    match LastIndexOf(name, '.')
    case None => None
    case Some(i) => Some(name[i + 1..])
  }

  /** For an extension without a dot, ending in `.e` is having extension `e`. */
  lemma EndsWithExtension(s: string, e: string)
    requires '.' !in e
    ensures EndsWith(s, "." + e) <==> Extension(s) == Some(e)
  {
    var d := |s| - |e| - 1;
    if EndsWith(s, "." + e) {
      assert s[d] == ("." + e)[0];
      forall k | d < k < |s| ensures s[k] != '.' {
        assert s[k] == e[k - d - 1];
      }
      var i := LastIndexOf(s, '.').value;
      assert i == d;
      assert s[d + 1..] == s[d..][1..] == ("." + e)[1..] == e;
    }
    if Extension(s) == Some(e) {
      var i := LastIndexOf(s, '.').value;
      assert s[i + 1..] == e;
      assert i == d;
      assert s[d..] == [s[d]] + s[d + 1..];
      assert s[|s| - |"." + e|..] == s[d..];
    }
  }

  /** A lower-case name is read as CSV, as Excel or not at all according to its extension. */
  lemma LowerNameByExtension(lower: string)
    ensures EndsWith(lower, ".csv") <==> Extension(lower) == Some("csv")
    ensures IsExcelName(lower) <==> Extension(lower) == Some("xlsx") || Extension(lower) == Some("xls")
  {
    assert "." + "csv" == ".csv" && "." + "xlsx" == ".xlsx" && "." + "xls" == ".xls";
    EndsWithExtension(lower, "csv");
    EndsWithExtension(lower, "xlsx");
    EndsWithExtension(lower, "xls");
  }

  /** An uploaded file is read as CSV, as Excel or not at all according to its lower-case extension. */
  lemma FileFormatByExtension(name: string)
    ensures var ext := Extension(Lower(name));
            && (LoadFromFile(Some(name)) == Csv(name) <==> ext == Some("csv"))
            && (LoadFromFile(Some(name)) == Excel(name) <==> ext == Some("xlsx") || ext == Some("xls"))
            && (LoadFromFile(Some(name)) == Unsupported <==>
                  ext != Some("csv") && ext != Some("xlsx") && ext != Some("xls"))
  {
    LowerNameByExtension(Lower(name));
  }

  /** No file means no data; the chosen reader does not depend on the case of the name. */
  lemma FileFormatIgnoresCase(a: string, b: string)
    requires Lower(a) == Lower(b)
    ensures LoadFromFile(None) == NoData
    ensures LoadFromFile(Some(a)).Csv? <==> LoadFromFile(Some(b)).Csv?
    ensures LoadFromFile(Some(a)).Excel? <==> LoadFromFile(Some(b)).Excel?
    ensures LoadFromFile(Some(a)).Unsupported? <==> LoadFromFile(Some(b)).Unsupported?
  {
  }

  /** A `.pdf` upload is refused; a capitalised `.CSV` is read as CSV. */
  lemma FileFormatExamples()
    ensures LoadFromFile(Some("report.pdf")) == Unsupported
    ensures LoadFromFile(Some("Detentions.CSV")) == Csv("Detentions.CSV")
  {
    LowerWithoutCapitals("report.pdf");
    assert Lower("Detentions.CSV") == "detentions.csv";
  }

  // ---------------------------------------------------------------------
  // Links
  // ---------------------------------------------------------------------

  const GoogleHost := "docs.google.com"
  const EditMarker := "/edit"
  const DocMarker := "/d/"

  /** The CSV export endpoint of the Google Sheet with document id `id`. */
  function ExportUrl(id: string): string {
    "https://docs.google.com/spreadsheets/d/" + id + "/export?format=csv"
  }

  /**
   * `url.split("/d/")[1].split("/")[0]`, or `None` where indexing piece 1
   * raises `IndexError` (there is no `"/d/"`).
   */
  function SheetId(url: string): (r: Option<string>)
    ensures r.None? <==> !Contains(url, DocMarker)
  {
    var parts := Split(url, DocMarker);
    if |parts| < 2 then None else Some(Split(parts[1], "/")[0])
  }

  /** The Google Sheets rewrite: an edit link becomes its CSV export link; a failed id extraction keeps the URL. */
  function RewriteSheetsLink(url: string): (r: string)
    ensures r != url ==> Contains(url, GoogleHost) && Contains(url, EditMarker) && Contains(url, DocMarker)
    ensures r != url ==> SheetId(url).Some? && r == ExportUrl(SheetId(url).value)
  {
    if Contains(url, GoogleHost) && Contains(url, EditMarker) then
      match SheetId(url)
      case Some(id) => ExportUrl(id)
      case None => url
    else url
  }

  /** The reader for a (possibly rewritten) link: Excel for an Excel suffix, CSV otherwise. */
  function ReaderFor(url: string): (r: Source)
    ensures (r.Csv? || r.Excel?) && r.target == url
    ensures r.Excel? <==> IsExcelName(Lower(url))
  {
    if IsExcelName(Lower(url)) then Excel(url) else Csv(url)
  }

  /** `load_data_from_url`: an empty link loads nothing; otherwise strip, rewrite, dispatch. */
  function LoadFromUrl(url: string): (r: Source)
    ensures r.NoData? <==> url == ""
    ensures !r.Unsupported?
  {
    if url == "" then NoData
    else ReaderFor(RewriteSheetsLink(Strip(url)))
  }

  /** Cutting at the first `"/d/"` and then at the first `"/"` is cutting at the first `"/"`. */
  lemma BeforeSlashOfBeforeMarker(rest: string)
    ensures Before(Before(rest, DocMarker), "/") == Before(rest, "/")
  {
    var p := Before(rest, DocMarker);
    assert p == rest[..|p|];
    forall j | 0 <= j && j + 1 <= |p|
      ensures OccursAt(p, "/", j) <==> OccursAt(rest, "/", j)
    {
      assert p[j..j + 1] == rest[j..j + 1];
    }
    match IndexOf(rest, DocMarker)
    case None =>
      assert p == rest;
    case Some(m) =>
      assert rest[m..m + 3] == DocMarker;
      assert rest[m] == '/';
      assert rest[m..m + 1] == [rest[m]];
      assert OccursAt(rest, "/", m);
  }

  /** The id taken from a link is the text after its first `"/d/"` up to the next `"/"`, and holds no `"/"`. */
  lemma SheetIdIsSegment(url: string)
    ensures IndexOf(url, DocMarker).None? ==> SheetId(url) == None
    ensures IndexOf(url, DocMarker).Some? ==>
              var i := IndexOf(url, DocMarker).value;
              && SheetId(url) == Some(Before(url[i + 3..], "/"))
              && '/' !in SheetId(url).value
  {
    if IndexOf(url, DocMarker).Some? {
      var i := IndexOf(url, DocMarker).value;
      var rest := url[i + 3..];
      assert SheetId(url) == Some(Before(rest, "/")) by {
        SplitSecond(url, DocMarker);
        SplitFirstIsBefore(rest, DocMarker);
        SplitFirstIsBefore(Split(url, DocMarker)[1], "/");
        BeforeSlashOfBeforeMarker(rest);
      }
      assert '/' !in Before(rest, "/") by {
        BeforeCharAbsent(rest, '/');
      }
    }
  }

  /**
   * A stripped link that mentions `docs.google.com` and `/edit` and has a
   * `/d/` is replaced by the export link of the id found there; any other
   * link is kept as it is.
   */
  lemma SheetsLinkRewrite(u: string)
    ensures Contains(u, GoogleHost) && Contains(u, EditMarker) && Contains(u, DocMarker) ==>
              var i := IndexOf(u, DocMarker).value;
              RewriteSheetsLink(u) == ExportUrl(Before(u[i + 3..], "/"))
    ensures !(Contains(u, GoogleHost) && Contains(u, EditMarker) && Contains(u, DocMarker)) ==>
              RewriteSheetsLink(u) == u
  {
    SheetIdIsSegment(u);
  }

  /** An export link is read as CSV. */
  lemma ExportUrlIsCsv(id: string)
    ensures ReaderFor(ExportUrl(id)) == Csv(ExportUrl(id))
  {
    var u := ExportUrl(id);
    var l := Lower(u);
    assert u[|u| - 1] == 'v';
    assert l[|l| - 1] == 'v';
  }

  /** A link is read as Excel exactly when its lower-case extension is `xlsx` or `xls`; it is never refused. */
  lemma UrlFormatByExtension(url: string)
    ensures url != "" ==>
              var u := RewriteSheetsLink(Strip(url));
              var ext := Extension(Lower(u));
              && (LoadFromUrl(url) == Excel(u) <==> ext == Some("xlsx") || ext == Some("xls"))
              && (LoadFromUrl(url) == Csv(u) <==> ext != Some("xlsx") && ext != Some("xls"))
  {
    if url != "" {
      LowerNameByExtension(Lower(RewriteSheetsLink(Strip(url))));
    }
  }

  /** A Google Sheets edit link is always fetched as CSV from its export endpoint. */
  lemma SheetsLinkIsCsv(url: string)
    requires var u := Strip(url);
             Contains(u, GoogleHost) && Contains(u, EditMarker) && Contains(u, DocMarker)
    ensures var u := Strip(url);
            var i := IndexOf(u, DocMarker).value;
            LoadFromUrl(url) == Csv(ExportUrl(Before(u[i + 3..], "/")))
  {
    var u := Strip(url);
    SheetsLinkRewrite(u);
    ExportUrlIsCsv(Before(u[IndexOf(u, DocMarker).value + 3..], "/"));
  }

  /** The start of a Google Sheets edit link, up to the document id. */
  const SheetsPrefix := "https://" + GoogleHost + "/spreadsheets" + DocMarker

  /** The prefix holds its only `"/d/"` at its end. */
  lemma SheetsPrefixMarker()
    ensures IndexOf(SheetsPrefix, DocMarker) == Some(36)
  {
    assert SheetsPrefix[36..39] == DocMarker;
    forall k | 0 <= k < 36 ensures !OccursAt(SheetsPrefix, DocMarker, k) {
      assert SheetsPrefix[k..k + 3][0] == SheetsPrefix[k];
      assert SheetsPrefix[k..k + 3][1] == SheetsPrefix[k + 1];
      assert SheetsPrefix[k..k + 3][2] == SheetsPrefix[k + 2];
    }
    IndexOfIs(SheetsPrefix, DocMarker, 36);
  }

  /** An edit link: the prefix, the document id, then `/edit` and whatever follows it. */
  function EditLink(id: string, tail: string): string {
    SheetsPrefix + id + EditMarker + tail
  }

  /** An edit link mentions the Google host and `/edit`. */
  lemma EditLinkMentions(id: string, tail: string)
    ensures Contains(EditLink(id, tail), GoogleHost) && Contains(EditLink(id, tail), EditMarker)
  {
    var url := EditLink(id, tail);
    OccursIn("https://", GoogleHost, "");
    assert "https://" + GoogleHost + "" == "https://" + GoogleHost;
    OccursExtend("https://" + GoogleHost, GoogleHost, 8, "/spreadsheets");
    OccursExtend("https://" + GoogleHost + "/spreadsheets", GoogleHost, 8, DocMarker);
    OccursExtend(SheetsPrefix, GoogleHost, 8, id);
    OccursExtend(SheetsPrefix + id, GoogleHost, 8, EditMarker);
    OccursExtend(SheetsPrefix + id + EditMarker, GoogleHost, 8, tail);
    OccursAtContains(url, GoogleHost, 8);
    OccursIn(SheetsPrefix + id, EditMarker, tail);
    OccursAtContains(url, EditMarker, |SheetsPrefix + id|);
  }

  /** The first `"/d/"` of an edit link is the one that ends its prefix. */
  lemma EditLinkMarker(id: string, tail: string)
    ensures IndexOf(EditLink(id, tail), DocMarker) == Some(36)
  {
    SheetsPrefixMarker();
    IndexOfPrefix(SheetsPrefix, DocMarker, id);
    IndexOfPrefix(SheetsPrefix + id, DocMarker, EditMarker);
    IndexOfPrefix(SheetsPrefix + id + EditMarker, DocMarker, tail);
  }

  /** After the prefix, an edit link holds the id, a `/`, and the rest. */
  lemma EditLinkRest(id: string, tail: string)
    ensures EditLink(id, tail)[39..] == id + ['/'] + ("edit" + tail)
  {
    assert |SheetsPrefix| == 39;
    assert EditLink(id, tail)[39..] == id + EditMarker + tail;
  }

  /** An edit link of the document `id` is fetched as CSV from that document's export endpoint. */
  lemma SheetsEditLinkExport(id: string, tail: string)
    requires '/' !in id
    requires tail == [] || !IsSpace(tail[|tail| - 1])
    ensures LoadFromUrl(EditLink(id, tail)) == Csv(ExportUrl(id))
  {
    var url := EditLink(id, tail);
    assert IsStripped(url) by {
      assert url[0] == 'h';
      assert tail == [] ==> url[|url| - 1] == 't';
      assert tail != [] ==> url[|url| - 1] == tail[|tail| - 1];
    }
    EditLinkMentions(id, tail);
    EditLinkMarker(id, tail);
    EditLinkRest(id, tail);
    OccursAtContains(url, DocMarker, 36);
    BeforeIs(id, '/', "edit" + tail);
    SheetsLinkIsCsv(url);
  }
}
