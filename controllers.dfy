/** The parts of the web controllers that decide something: the dashboard query defaults
    (`DashboardController`), the site-id resolution, the export-format dispatch and the CSV
    writer (`SitesController` in GroupsAndSitesControllers.cs). */
module Controllers {
  import opened Common
  import opened Entities
  import opened Seqs
  import opened Text
  import opened Sync
  import opened SiteOps
  import opened Dashboard

  /** The length of the default window: `dateFrom` defaults to 28 days before `dateTo`. */
  const DefaultWindowDays := 28

  /** `DashboardController.GetDashboard`: the query it hands to the handler. A missing end
      is today, a missing start is 28 days before the end; the sort defaults are "clicks"
      and "desc", and supplied values pass through unchecked. */
  function DashboardQueryOf(userId: Guid, groupId: Option<Guid>, tagId: Option<Guid>,
                            dateFrom: Option<Date>, dateTo: Option<Date>,
                            sortBy: Option<string>, sortDir: Option<string>, today: Date): (q: DashboardQuery)
    ensures q.userId == userId && q.groupId == groupId && q.tagId == tagId
    ensures dateTo.Some? ==> q.dateTo == dateTo.value
    ensures dateTo.None? ==> q.dateTo == today
    ensures dateFrom.Some? ==> q.dateFrom == dateFrom.value
    ensures dateFrom.None? ==> q.dateFrom == q.dateTo - DefaultWindowDays
    ensures q.sortBy == (if sortBy.Some? then sortBy.value else "clicks")
    ensures q.sortDir == (if sortDir.Some? then sortDir.value else "desc")
  {
    var end := OrElse(dateTo, today);
    DashboardQuery(userId, groupId, tagId, OrElse(dateFrom, end - DefaultWindowDays), end,
                   OrElse(sortBy, "clicks"), OrElse(sortDir, "desc"))
  }

  /** The days from `a` to `b`, both included, in order. */
  function DayRange(a: Date, b: Date): (r: seq<Date>)
    ensures |r| == if a <= b then b - a + 1 else 0
    ensures forall d :: d in r <==> a <= d <= b
    decreases b - a
  {
    if a > b then [] else [a] + DayRange(a + 1, b)
  }

  /** With no dates given the window holds the 29 days that end today; a given start after
      the given end is not corrected, and the window is then empty. */
  lemma DefaultWindow(userId: Guid, groupId: Option<Guid>, tagId: Option<Guid>,
                      dateFrom: Option<Date>, dateTo: Option<Date>,
                      sortBy: Option<string>, sortDir: Option<string>, today: Date)
    ensures var q := DashboardQueryOf(userId, groupId, tagId, None, None, sortBy, sortDir, today);
      q.dateTo == today && |DayRange(q.dateFrom, q.dateTo)| == DefaultWindowDays + 1
    ensures dateFrom.Some? && dateTo.Some? && dateFrom.value > dateTo.value ==>
      var q := DashboardQueryOf(userId, groupId, tagId, dateFrom, dateTo, sortBy, sortDir, today);
      q.dateFrom > q.dateTo && DayRange(q.dateFrom, q.dateTo) == []
  {
  }

  /** `ResolveSiteIdAsync`: an id that parses as a Guid is used as it is (ownership is left
      to the handler); any other text is looked up as a property id among the user's
      sites. `parseGuid` is `Guid.TryParse`. */
  function ResolveSiteId(sites: seq<Site>, userId: Guid, id: string,
                         parseGuid: string -> Option<Guid>): (r: Option<Guid>)
    ensures parseGuid(id).Some? ==> r == parseGuid(id)
    ensures parseGuid(id).None? ==>
      (r.None? <==> forall s :: s in sites ==> s.userId != userId || s.propertyId != id)
    ensures parseGuid(id).None? && r.Some? ==>
      exists s :: s in sites && s.userId == userId && s.propertyId == id && s.id == r.value
  {
    if parseGuid(id).Some? then parseGuid(id)
    else
      match SiteByPropertyId(sites, userId, id)
      case None => None
      case Some(s) => Some(s.id)
  }

  /** The column titles of the export. */
  const CsvColumns := ["Date", "Clicks", "Impressions", "CTR", "Avg Position", "Keywords Count"]

  /** The header line: the titles separated by commas. */
  const CsvHeader := "Date" + "," + "Clicks" + "," + "Impressions" + "," + "CTR" + ","
                     + "Avg Position" + "," + "Keywords Count"

  lemma HeaderColumns()
    ensures CsvHeader == Join(',', CsvColumns)
  {
    assert CsvColumns[5..] == ["Keywords Count"];
    assert CsvColumns[4..] == ["Avg Position"] + CsvColumns[5..];
    assert CsvColumns[3..] == ["CTR"] + CsvColumns[4..];
    assert CsvColumns[2..] == ["Impressions"] + CsvColumns[3..];
    assert CsvColumns[1..] == ["Clicks"] + CsvColumns[2..];
  }

  /** The text formats of the CSV fields the model does not spell out: the day as
      `yyyy-MM-dd`, the click-through rate with four decimals (`F4`) and the position with
      two (`F2`). */
  datatype CsvFormat = CsvFormat(dateText: Date -> string, ctrText: real -> string,
                                 positionText: real -> string)

  /** The six fields of a point's line. */
  function Fields(p: TimeSeriesPoint, f: CsvFormat): (r: seq<string>)
    ensures |r| == 6
  {
    [f.dateText(p.date), IntText(p.clicks), IntText(p.impressions), f.ctrText(p.ctr),
     f.positionText(p.avgPosition), IntText(p.keywordsCount)]
  }

  /** A point's line, without its line break. */
  function Line(p: TimeSeriesPoint, f: CsvFormat): string {
    Join(',', Fields(p, f))
  }

  /** The text the writer builds: the header line, then one line per point, each ended by
      a line break (`AppendLine`). */
  function Csv(data: seq<TimeSeriesPoint>, f: CsvFormat): string {
    if data == [] then CsvHeader + "\n"
    else Csv(data[..|data| - 1], f) + Line(data[|data| - 1], f) + "\n"
  }

  /** `GenerateCsv`. */
  method GenerateCsv(data: seq<TimeSeriesPoint>, f: CsvFormat) returns (csv: string)
    ensures csv == Csv(data, f)
  {
    csv := CsvHeader + "\n";
    for i := 0 to |data|
      invariant csv == Csv(data[..i], f)
    {
      assert data[..i + 1][..i] == data[..i];
      csv := csv + Line(data[i], f) + "\n";
    }
    assert data[..|data|] == data;
  }

  lemma {:induction false} JoinSnoc(sep: char, xs: seq<string>, y: string)
    requires xs != []
    ensures Join(sep, xs + [y]) == Join(sep, xs) + [sep] + y
  {
    if |xs| == 1 {
      assert (xs + [y])[1..] == [y];
    } else {
      assert (xs + [y])[1..] == xs[1..] + [y];
      JoinSnoc(sep, xs[1..], y);
    }
  }

  /** The CSV is its lines joined by line breaks, with a final line break. */
  lemma {:induction false} CsvLines(data: seq<TimeSeriesPoint>, f: CsvFormat)
    ensures Csv(data, f) == Join('\n', [CsvHeader] + Map(data, LineOf(f))) + "\n"
  {
    var line := LineOf(f);
    if data != [] {
      var init, last := data[..|data| - 1], data[|data| - 1];
      var ls, l := [CsvHeader] + Map(init, line), Line(last, f);
      CsvLines(init, f);
      MapSnoc(data, line);
      assert [CsvHeader] + Map(data, line) == ls + [l];
      JoinSnoc('\n', ls, l);
      assert Join('\n', ls) + ['\n'] + l + "\n" == (Join('\n', ls) + "\n") + l + "\n";
    }
  }

  /** The formats never write a comma or a line break. */
  ghost predicate PlainFormat(f: CsvFormat) {
    (forall d :: Plain(f.dateText(d)))
    && (forall x :: Plain(f.ctrText(x)) && Plain(f.positionText(x)))
  }

  /** A field text that cannot break the layout: no comma, no line break. */
  predicate Plain(s: string) {
    ',' !in s && '\n' !in s
  }

  function LineOf(f: CsvFormat): TimeSeriesPoint -> string {
    (p: TimeSeriesPoint) => Line(p, f)
  }

  /** Read back line by line, the CSV is the header, then one line per point in input
      order, then the empty remainder after the last line break: n points give n + 1
      lines. */
  lemma CsvShape(data: seq<TimeSeriesPoint>, f: CsvFormat)
    requires PlainFormat(f)
    ensures Split(Csv(data, f), '\n') == [CsvHeader] + Map(data, LineOf(f)) + [""]
  {
    var lines := [CsvHeader] + Map(data, LineOf(f));
    LinesPlain(data, f);
    var text := Join('\n', lines);
    SplitJoinPieces(lines, '\n');
    CsvLines(data, f);
    SplitConcat(text, "", '\n');
    assert text + "\n" == text + ['\n'] + "";
  }

  /** The header is one line. */
  lemma HeaderPlain()
    ensures '\n' !in CsvHeader
  {
    assert '\n' !in "Date" && '\n' !in "Clicks" && '\n' !in "Impressions";
    assert '\n' !in "CTR" && '\n' !in "Avg Position" && '\n' !in "Keywords Count";
  }

  /** The header splits at commas into the six titles, one per field of a point's line. */
  lemma HeaderSplit()
    ensures Split(CsvHeader, ',') == CsvColumns && |CsvColumns| == 6
  {
    ColumnsPlain();
    HeaderColumns();
    SplitJoinPieces(CsvColumns, ',');
  }

  lemma ColumnsPlain()
    ensures forall k :: 0 <= k < |CsvColumns| ==> ',' !in CsvColumns[k]
  {
    forall k | 0 <= k < |CsvColumns|
      ensures ',' !in CsvColumns[k]
    {
      if k == 0 {
        assert ',' !in "Date";
      } else if k == 1 {
        assert ',' !in "Clicks";
      } else if k == 2 {
        assert ',' !in "Impressions";
      } else if k == 3 {
        assert ',' !in "CTR";
      } else if k == 4 {
        assert ',' !in "Avg Position";
      } else {
        assert ',' !in "Keywords Count";
      }
    }
  }

  /** No line of the CSV holds a line break. */
  lemma LinesPlain(data: seq<TimeSeriesPoint>, f: CsvFormat)
    requires PlainFormat(f)
    ensures forall k :: 0 <= k < |[CsvHeader] + Map(data, LineOf(f))| ==>
      '\n' !in ([CsvHeader] + Map(data, LineOf(f)))[k]
  {
    var lines := [CsvHeader] + Map(data, LineOf(f));
    HeaderPlain();
    forall k | 1 <= k < |lines|
      ensures '\n' !in lines[k]
    {
      assert lines[k] == Line(data[k - 1], f);
      FieldsPlain(data[k - 1], f);
    }
  }

  /** Each point's line splits at commas into its six fields: the day, clicks,
      impressions, click-through rate, position and keyword count. */
  lemma LineFields(p: TimeSeriesPoint, f: CsvFormat)
    requires PlainFormat(f)
    ensures Split(Line(p, f), ',') == Fields(p, f)
  {
    FieldsPlain(p, f);
    SplitJoin(Fields(p, f), ',');
  }

  /** No field holds a comma, and the line holds no line break. */
  lemma FieldsPlain(p: TimeSeriesPoint, f: CsvFormat)
    requires PlainFormat(f)
    ensures forall k :: 0 <= k < 6 ==> ',' !in Fields(p, f)[k] && '\n' !in Fields(p, f)[k]
    ensures '\n' !in Line(p, f)
  {
    var fs := Fields(p, f);
    JoinPlain(',', fs, '\n');
  }

  /** Joining pieces free of a character other than the separator gives a text free of it. */
  lemma {:induction false} JoinPlain(sep: char, xs: seq<string>, c: char)
    requires c != sep
    requires forall k :: 0 <= k < |xs| ==> c !in xs[k]
    ensures c !in Join(sep, xs)
  {
    if |xs| > 1 {
      JoinPlain(sep, xs[1..], c);
    }
  }

  /** The format check: "csv" in any letter case. */
  predicate IsCsv(format: string) {
    ToLower(format) == "csv"
  }

  /** `ExportSiteData` of the sites controller: resolve the id, run the export handler, then
      dispatch on the format. The site checks come first, so an unknown site is reported
      even when the format is unsupported. */
  method ExportFile(sites: seq<Site>, metrics: seq<SiteMetric>, userId: Guid, id: string,
                    dateFrom: Date, dateTo: Date, format: string,
                    parseGuid: string -> Option<Guid>, f: CsvFormat) returns (r: Result<string>)
    ensures ResolveSiteId(sites, userId, id, parseGuid).None? ==> r == Failure("Site not found")
    ensures ResolveSiteId(sites, userId, id, parseGuid).Some? ==>
      var e := ExportSiteData(sites, metrics, userId, ResolveSiteId(sites, userId, id, parseGuid).value,
                              dateFrom, dateTo);
      && (!e.Success? ==> r == Failure(e.error))
      && (e.Success? && IsCsv(format) ==> r == Success(Csv(e.value, f)))
      && (e.Success? && !IsCsv(format) ==> r == Failure("Unsupported format"))
  {
    var siteId := ResolveSiteId(sites, userId, id, parseGuid);
    if siteId.None? {
      return Failure("Site not found");
    }
    var e := ExportSiteData(sites, metrics, userId, siteId.value, dateFrom, dateTo);
    if !e.Success? {
      return Failure(e.error);
    }
    if IsCsv(format) {
      var csv := GenerateCsv(e.value, f);
      return Success(csv);
    }
    return Failure("Unsupported format");
  }

  /** An exported file is a CSV of exactly the site's rows in the range, for the user's
      site named either by its id or by its property id. */
  lemma ExportFileSites(sites: seq<Site>, metrics: seq<SiteMetric>, userId: Guid, id: string,
                        dateFrom: Date, dateTo: Date, parseGuid: string -> Option<Guid>)
    ensures var s := ResolveSiteId(sites, userId, id, parseGuid);
      s.Some? && ExportSiteData(sites, metrics, userId, s.value, dateFrom, dateTo).Success? ==>
        exists site :: site in sites && site.userId == userId && site.id == s.value
  {
    var s := ResolveSiteId(sites, userId, id, parseGuid);
    if s.Some? && ExportSiteData(sites, metrics, userId, s.value, dateFrom, dateTo).Success? {
      ExportSpec(sites, metrics, userId, s.value, dateFrom, dateTo);
    }
  }
}
