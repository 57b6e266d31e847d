/** `MessageService`: the daily summary, as the JSON-shaped payload handed
    to workflow tools and as the Markdown text posted to Discord.

    The service's fields are set once and never changed, so the service is
    its inputs: the repository with its transport, the scraped sector
    records (None when the scraper gave None), and today's date in the
    configured time zone. */
module MessageService {
  import opened Wrappers
  import opened Text
  import opened Calendar
  import opened Values
  import opened AlphaVantageRepo
  import opened DataParser

  // ---------------------------------------------------------------------
  // The three-day window
  // ---------------------------------------------------------------------

  /** `[today, today + timedelta(days=1), today + timedelta(days=2)]`;
      None stands for the OverflowError when a day passes 9999-12-31. */
  function DailyDates(today: Date): (ds: Option<seq<Date>>)
    requires Valid(today)
    ensures ds.None? <==> Ordinal(today) + 2 > MaxOrdinal
    ensures ds.Some? ==> |ds.value| == 3 && ds.value[0] == today
    ensures ds.Some? ==> forall i :: 0 <= i < 3 ==> Valid(ds.value[i]) && Ordinal(ds.value[i]) == Ordinal(today) + i
  {
    match (AddDays(today, 1), AddDays(today, 2))
    case (Some(next), Some(after)) => Some([today, next, after])
    case _ => None
  }

  /** Two valid dates with the same day number are the same date. */
  lemma OrdinalInjective(a: Date, b: Date)
    requires Valid(a) && Valid(b) && Ordinal(a) == Ordinal(b)
    ensures a == b
  {
    BeforeMatchesOrdinal(a, b);
    BeforeMatchesOrdinal(b, a);
  }

  /** The three days are consecutive calendar days, across month and year
      ends: strictly increasing, each the successor of the one before, and
      they are exactly the valid dates from the first to the last. */
  lemma DailyDatesConsecutive(today: Date)
    requires Valid(today) && DailyDates(today).Some?
    ensures var ds := DailyDates(today).value;
      Before(ds[0], ds[1]) && Before(ds[1], ds[2]) &&
      ds[1] == Successor(ds[0]) && ds[2] == Successor(ds[1]) &&
      forall x :: Valid(x) ==> (x in ds <==> NotAfter(ds[0], x) && NotAfter(x, ds[2]))
  {
    var ds := DailyDates(today).value;
    BeforeMatchesOrdinal(ds[0], ds[1]);
    BeforeMatchesOrdinal(ds[1], ds[2]);
    ConsecutiveSuccessor(ds[0], ds[1]);
    ConsecutiveSuccessor(ds[1], ds[2]);
    ConsecutiveSpan(ds);
  }

  /** A valid date whose day number is one more than `d`'s is `d`'s
      successor. */
  lemma ConsecutiveSuccessor(d: Date, e: Date)
    requires Valid(d) && Valid(e) && Ordinal(e) == Ordinal(d) + 1
    ensures e == Successor(d)
  {
    OrdinalRange(e);
    SuccessorOverflow(d);
    SuccessorOrdinal(d);
    OrdinalInjective(Successor(d), e);
  }

  /** Three dates with consecutive day numbers are exactly the valid dates
      from the first to the last. */
  lemma ConsecutiveSpan(ds: seq<Date>)
    requires |ds| == 3
    requires Valid(ds[0]) && Valid(ds[1]) && Valid(ds[2])
    requires Ordinal(ds[1]) == Ordinal(ds[0]) + 1 && Ordinal(ds[2]) == Ordinal(ds[0]) + 2
    ensures forall x :: Valid(x) ==> (x in ds <==> NotAfter(ds[0], x) && NotAfter(x, ds[2]))
  {
    forall x | Valid(x)
      ensures x in ds <==> NotAfter(ds[0], x) && NotAfter(x, ds[2])
    {
      assert x in ds <==> x == ds[0] || x == ds[1] || x == ds[2];
      WithinSpan(ds[0], ds[1], ds[2], x);
    }
  }

  lemma WithinSpan(a: Date, b: Date, c: Date, x: Date)
    requires Valid(a) && Valid(b) && Valid(c) && Valid(x)
    requires Ordinal(b) == Ordinal(a) + 1 && Ordinal(c) == Ordinal(a) + 2
    ensures x == a || x == b || x == c <==> NotAfter(a, x) && NotAfter(x, c)
  {
    BeforeMatchesOrdinal(a, x);
    BeforeMatchesOrdinal(x, c);
    var i := Ordinal(x) - Ordinal(a);
    if i == 0 {
      OrdinalInjective(x, a);
    } else if i == 1 {
      OrdinalInjective(x, b);
    } else if i == 2 {
      OrdinalInjective(x, c);
    }
  }

  /** The window the repository builds from the three days runs from the
      first to the last of them. */
  lemma DailyWindow(today: Date)
    requires Valid(today) && DailyDates(today).Some?
    ensures var ds := DailyDates(today).value;
      ThisWeekWindow(ds, today) == Some(Between(ds[0], ds[2]))
  {
    var ds := DailyDates(today).value;
    DailyDatesConsecutive(today);
    var lo, hi := Earliest(ds), Latest(ds);
    assert NotAfter(lo, ds[0]) && NotAfter(ds[2], hi);
    assert lo == ds[0] && hi == ds[2];
  }

  // ---------------------------------------------------------------------
  // generate_daily_summary_json(_async)
  // ---------------------------------------------------------------------

  /** The payload dict: `top_sectors_details`, `earnings`, `ipos`, `dates`. */
  datatype Payload = Payload(topSectorsDetails: Option<seq<Record>>, earnings: seq<Record>,
                             ipos: seq<Record>, dates: seq<string>)

  /** The payload as the JSON object it is serialised to. */
  function PayloadJson(p: Payload): (j: Json)
    ensures j.JObject? && j.fields.Keys == {"top_sectors_details", "earnings", "ipos", "dates"}
  {
    JObject(map[
      "top_sectors_details" := (if p.topSectorsDetails.Some? then RecordsJson(p.topSectorsDetails.value) else JValue(Null)),
      "earnings" := RecordsJson(p.earnings),
      "ipos" := RecordsJson(p.ipos),
      "dates" := JArray(seq(|p.dates|, i requires 0 <= i < |p.dates| => JValue(Str(p.dates[i]))))])
  }

  /** `generate_daily_summary_json()` and its async twin, which differ only
      in how the sector records are fetched: the earnings and IPO calls of
      the service go to `get_*_this_week` with the three days and the
      default horizon and no symbol. None stands for the OverflowError of
      the date arithmetic. */
  function DailySummary(repo: Repo, transport: Query -> Response, sectors: Option<seq<Record>>, today: Date): (r: Option<Payload>)
    requires Valid(today)
    ensures r.None? <==> Ordinal(today) + 2 > MaxOrdinal
  {
    match DailyDates(today)
    case None => None
    case Some(dates) =>
      var earnings := GetEarningsThisWeek(repo, transport, dates, today, DefaultHorizon, None);
      var ipos := GetIposThisWeek(repo, transport, dates, today);
      Some(Payload(sectors, earnings.value, ipos.value, seq(3, i requires 0 <= i < 3 => IsoFormat(dates[i]))))
  }

  /** The `dates` of the payload are the ISO 8601 spellings of today and the
      two days after, in order, and each reads back through
      `_normalize_date` as the same day. */
  lemma PayloadDates(repo: Repo, transport: Query -> Response, sectors: Option<seq<Record>>, today: Date)
    requires Valid(today) && DailySummary(repo, transport, sectors, today).Some?
    ensures var p := DailySummary(repo, transport, sectors, today).value;
      var ds := DailyDates(today).value;
      p.topSectorsDetails == sectors &&
      |p.dates| == 3 &&
      forall i :: 0 <= i < 3 ==>
        p.dates[i] == IsoFormat(ds[i]) &&
        NormalizedDate(Str(p.dates[i])) == Some(ds[i]) &&
        Ordinal(ds[i]) == Ordinal(today) + i
  {
    var ds := DailyDates(today).value;
    forall i | 0 <= i < 3
      ensures NormalizedDate(Str(IsoFormat(ds[i]))) == Some(ds[i])
    {
      IsoFormatRoundTrip(ds[i]);
    }
  }

  /** Every earnings record of the payload has exactly the earnings columns
      and a `reportDate` that is one of the three days; every IPO record has
      exactly the IPO columns and an `ipoDate` that is one of them. */
  lemma PayloadRowsInWindow(repo: Repo, transport: Query -> Response, sectors: Option<seq<Record>>, today: Date)
    requires Valid(today) && DailySummary(repo, transport, sectors, today).Some?
    ensures var p := DailySummary(repo, transport, sectors, today).value;
      var ds := DailyDates(today).value;
      (forall e :: e in p.earnings ==>
        e.Keys == (set k | k in EarningsFields) &&
        RowDate(e, "reportDate").Some? && RowDate(e, "reportDate").value in ds) &&
      (forall e :: e in p.ipos ==>
        e.Keys == (set k | k in IpoFields) &&
        RowDate(e, "ipoDate").Some? && RowDate(e, "ipoDate").value in ds)
  {
    var ds := DailyDates(today).value;
    DailyWindow(today);
    DailyDatesConsecutive(today);
    EarningsThisWeekInWindow(repo, transport, ds, today, DefaultHorizon, None);
    IposThisWeekInWindow(repo, transport, ds, today);
  }

  /** Nothing fetched for the three days is lost: every fetched earnings row
      whose `reportDate` is one of the three days has its projection among
      the payload's earnings, and likewise for IPO rows and `ipoDate`. */
  lemma PayloadRowsComplete(repo: Repo, transport: Query -> Response, sectors: Option<seq<Record>>, today: Date)
    requires Valid(today) && DailySummary(repo, transport, sectors, today).Some?
    ensures var p := DailySummary(repo, transport, sectors, today).value;
      var ds := DailyDates(today).value;
      (forall row :: row in FetchEarningsCalendar(repo, transport, DefaultHorizon, None) &&
                     RowDate(row, "reportDate").Some? && RowDate(row, "reportDate").value in ds
                     ==> Project(row, EarningsFields) in p.earnings) &&
      (forall row :: row in FetchIpoCalendar(repo, transport) &&
                     RowDate(row, "ipoDate").Some? && RowDate(row, "ipoDate").value in ds
                     ==> Project(row, IpoFields) in p.ipos)
  {
    var ds := DailyDates(today).value;
    DailyWindow(today);
    DailyDatesConsecutive(today);
    EarningsThisWeekInWindow(repo, transport, ds, today, DefaultHorizon, None);
    IposThisWeekInWindow(repo, transport, ds, today);
  }

  // ---------------------------------------------------------------------
  // generate_daily_summary_text(_async)
  // ---------------------------------------------------------------------

  /** The columns of the earnings table: no `fiscalDateEnding`. */
  const EarningsColumns: seq<string> := ["symbol", "name", "reportDate", "estimateEPS", "estimateCurrency"]

  const IpoColumns: seq<string> := ["symbol", "name", "ipoDate", "priceRange", "currency"]

  const SectorColumns: seq<string> :=
    ["name", "change_pct", "leader_stock", "leader_change_pct", "up_count", "unchanged_count", "down_count"]

  const SectorsTitle := "\U{1F525} Top Sector Details"
  const DatesTitle := "\U{1F4C5} Earnings & IPOs for "
  const EarningsTitle := "\U{1F9FE} Earnings"
  const IposTitle := "\U{1F195} IPOs"

  /** `payload.get("top_sectors_details") or []`. */
  function SectorRecords(p: Payload): (rs: seq<Record>)
    ensures p.topSectorsDetails.Some? ==> rs == p.topSectorsDetails.value
    ensures p.topSectorsDetails.None? ==> rs == []
  {
    if p.topSectorsDetails.Some? then p.topSectorsDetails.value else []
  }

  /** The text report of a payload: four blocks separated by blank lines,
      the sector title over its table, the line naming the dates, the
      earnings title over its table and the IPO title over its table. */
  function SummaryText(p: Payload): (text: string)
    ensures var head := SectorsTitle + "\n";
      |head| <= |text| && text[..|head|] == head
    ensures var last := "\n\n" + (IposTitle + "\n" + MarkdownTable(p.ipos, IpoColumns));
      |last| <= |text| && text[|text| - |last|..] == last
  {
    var b1 := SectorsTitle + "\n" + MarkdownTable(SectorRecords(p), SectorColumns);
    var b2 := DatesTitle + Join(", ", p.dates);
    var b3 := EarningsTitle + "\n" + MarkdownTable(p.earnings, EarningsColumns);
    var b4 := IposTitle + "\n" + MarkdownTable(p.ipos, IpoColumns);
    JoinFourEnds("\n\n", SectorsTitle + "\n", MarkdownTable(SectorRecords(p), SectorColumns), b2, b3, b4);
    Join("\n\n", [b1, b2, b3, b4])
  }

  /** Four pieces joined start with the front of the first piece and end
      with the separator and the last piece. */
  lemma JoinFourEnds(sep: string, x: string, y: string, b2: string, b3: string, b4: string)
    ensures var text := Join(sep, [x + y, b2, b3, b4]);
      |x| <= |text| && text[..|x|] == x &&
      |sep + b4| <= |text| && text[|text| - |sep + b4|..] == sep + b4
  {
    var a := x + y;
    var parts := [a, b2, b3, b4];
    var text := Join(sep, parts);
    assert parts[1..] == [b2, b3, b4];
    var rest := Join(sep, [b2, b3, b4]);
    RegroupFront(x, y, sep, rest);
    Front(x, y + sep + rest);
    JoinAppend(sep, [a, b2, b3], [b4]);
    assert [a, b2, b3] + [b4] == parts;
    var front := Join(sep, [a, b2, b3]);
    Associate(front, sep, b4);
    Back(front, sep + b4);
  }

  lemma RegroupFront<T>(x: seq<T>, y: seq<T>, sep: seq<T>, rest: seq<T>)
    ensures x + y + sep + rest == x + (y + sep + rest)
  {
  }

  lemma Associate<T>(a: seq<T>, b: seq<T>, c: seq<T>)
    ensures a + b + c == a + (b + c)
  {
  }

  lemma Front<T>(x: seq<T>, y: seq<T>)
    ensures (x + y)[..|x|] == x
  {
  }

  lemma Back<T>(x: seq<T>, y: seq<T>)
    ensures (x + y)[|x + y| - |y|..] == y
  {
  }

  /** `generate_daily_summary_text()` and its async twin. */
  function DailySummaryText(repo: Repo, transport: Query -> Response, sectors: Option<seq<Record>>, today: Date): (r: Option<string>)
    requires Valid(today)
    ensures r.None? <==> Ordinal(today) + 2 > MaxOrdinal
  {
    match DailySummary(repo, transport, sectors, today)
    case None => None
    case Some(p) => Some(SummaryText(p))
  }

  /** No newline in any header or in any cell the table prints. */
  predicate FlatCells(items: seq<Record>, headers: seq<string>) {
    (forall h :: h in headers ==> '\n' !in h) &&
    (forall k, h :: 0 <= k < |items| && h in headers ==> '\n' !in Show(Get(items[k], h, Str(""))))
  }

  lemma SplitBlankLine(x: string, y: string)
    ensures Split(x + "\n\n" + y, '\n') == Split(x, '\n') + [""] + Split(y, '\n')
  {
    assert x + "\n\n" + y == x + ['\n'] + ([] + ['\n'] + y);
    SplitAppend(x, [] + ['\n'] + y, '\n');
    SplitAppend([], y, '\n');
  }

  /** Splitting four blocks joined by blank lines splits each block. */
  lemma SplitBlocks(b1: string, b2: string, b3: string, b4: string)
    ensures Split(Join("\n\n", [b1, b2, b3, b4]), '\n')
         == Split(b1, '\n') + [""] + Split(b2, '\n') + [""] + Split(b3, '\n') + [""] + Split(b4, '\n')
  {
    var tail3 := b3 + "\n\n" + b4;
    var tail2 := b2 + "\n\n" + tail3;
    assert Join("\n\n", [b1, b2, b3, b4]) == b1 + "\n\n" + tail2 by {
      assert [b1, b2, b3, b4][1..] == [b2, b3, b4] && [b2, b3, b4][1..] == [b3, b4] && [b3, b4][1..] == [b4];
      assert Join("\n\n", [b3, b4]) == tail3;
      assert Join("\n\n", [b2, b3, b4]) == tail2;
    }
    SplitBlankLine(b1, tail2);
    SplitBlankLine(b2, tail3);
    SplitBlankLine(b3, b4);
    Reassociate(Split(b1, '\n'), Split(b2, '\n'), Split(b3, '\n'), Split(b4, '\n'), "");
  }

  lemma Reassociate<T>(l1: seq<T>, l2: seq<T>, l3: seq<T>, l4: seq<T>, blank: T)
    ensures l1 + [blank] + (l2 + [blank] + (l3 + [blank] + l4)) == l1 + [blank] + l2 + [blank] + l3 + [blank] + l4
  {
  }

  /** The lines of four blocks joined by blank lines, three of them a title
      line over a body. */
  lemma SplitSections(t1: string, m1: string, d: string, t3: string, m3: string, t4: string, m4: string)
    requires '\n' !in t1 && '\n' !in d && '\n' !in t3 && '\n' !in t4
    ensures Split(Join("\n\n", [t1 + "\n" + m1, d, t3 + "\n" + m3, t4 + "\n" + m4]), '\n')
         == [t1] + Split(m1, '\n') + ["", d, "", t3] + Split(m3, '\n') + ["", t4] + Split(m4, '\n')
  {
    SplitBlocks(t1 + "\n" + m1, d, t3 + "\n" + m3, t4 + "\n" + m4);
    SplitCons(t1, m1, '\n');
    SplitNoSeparator(d, '\n');
    SplitCons(t3, m3, '\n');
    SplitCons(t4, m4, '\n');
    Regroup(t1, Split(m1, '\n'), d, t3, Split(m3, '\n'), t4, Split(m4, '\n'), "");
  }

  lemma Regroup<T>(t1: T, l1: seq<T>, d: T, t3: T, l3: seq<T>, t4: T, l4: seq<T>, blank: T)
    ensures ([t1] + l1) + [blank] + [d] + [blank] + ([t3] + l3) + [blank] + ([t4] + l4)
         == [t1] + l1 + [blank, d, blank, t3] + l3 + [blank, t4] + l4
  {
  }

  /** A table splits back into its output lines. */
  lemma SplitTable(items: seq<Record>, headers: seq<string>)
    requires FlatCells(items, headers)
    ensures Split(MarkdownTable(items, headers), '\n') == OutputLines(items, headers)
  {
    OutputLinesJoined(items, headers);
    SplitJoin(OutputLines(items, headers), '\n');
  }

  /** The report, line by line, always in the same order: the sector title
      and table, a blank line, the dates line, a blank line, the earnings
      title and table, a blank line, the IPO title and table. */
  lemma SummarySections(p: Payload)
    requires FlatCells(SectorRecords(p), SectorColumns) && FlatCells(p.earnings, EarningsColumns) && FlatCells(p.ipos, IpoColumns)
    requires '\n' !in Join(", ", p.dates)
    ensures Split(SummaryText(p), '\n') ==
      [SectorsTitle] + OutputLines(SectorRecords(p), SectorColumns)
      + ["", DatesTitle + Join(", ", p.dates), "", EarningsTitle] + OutputLines(p.earnings, EarningsColumns)
      + ["", IposTitle] + OutputLines(p.ipos, IpoColumns)
  {
    TitlesFlat();
    var datesLine := DatesTitle + Join(", ", p.dates);
    assert '\n' !in datesLine;
    SplitSections(SectorsTitle, MarkdownTable(SectorRecords(p), SectorColumns), datesLine,
                  EarningsTitle, MarkdownTable(p.earnings, EarningsColumns), IposTitle, MarkdownTable(p.ipos, IpoColumns));
    SplitTable(SectorRecords(p), SectorColumns);
    SplitTable(p.earnings, EarningsColumns);
    SplitTable(p.ipos, IpoColumns);
  }

  lemma TitlesFlat()
    ensures '\n' !in SectorsTitle && '\n' !in DatesTitle && '\n' !in EarningsTitle && '\n' !in IposTitle
  {
  }

  /** With no sector records (None or empty) and no earnings or IPO rows,
      the report is ten lines of which three say "No data.", and it holds no
      table at all: not a single pipe. */
  lemma EmptySummary(p: Payload)
    requires SectorRecords(p) == [] && p.earnings == [] && p.ipos == []
    requires '\n' !in Join(", ", p.dates) && '|' !in Join(", ", p.dates)
    ensures Split(SummaryText(p), '\n') ==
      [SectorsTitle, NoData, "", DatesTitle + Join(", ", p.dates), "", EarningsTitle, NoData, "", IposTitle, NoData]
    ensures '|' !in SummaryText(p)
  {
    ColumnsFlat();
    SummarySections(p);
    var lines := Split(SummaryText(p), '\n');
    assert lines == [SectorsTitle, NoData, "", DatesTitle + Join(", ", p.dates), "", EarningsTitle, NoData, "", IposTitle, NoData];
    TitlesPipeless();
    JoinAvoids("\n", lines, '|');
  }

  lemma ColumnsFlat()
    ensures FlatCells([], SectorColumns) && FlatCells([], EarningsColumns) && FlatCells([], IpoColumns)
  {
    HeadersFlat(SectorColumns);
    HeadersFlat(EarningsColumns);
    HeadersFlat(IpoColumns);
  }

  lemma HeadersFlat(headers: seq<string>)
    requires forall i :: 0 <= i < |headers| ==> '\n' !in headers[i]
    ensures FlatCells([], headers)
  {
  }

  lemma TitlesPipeless()
    ensures '|' !in SectorsTitle && '|' !in DatesTitle && '|' !in EarningsTitle && '|' !in IposTitle && '|' !in NoData
  {
  }

  /** `fiscalDateEnding`, fetched with every earnings row, never reaches the
      text: dropping it from every record leaves the report unchanged. */
  lemma FiscalDateEndingNotShown(p: Payload)
    ensures SummaryText(p) == SummaryText(p.(earnings := seq(|p.earnings|, k requires 0 <= k < |p.earnings| => p.earnings[k] - {"fiscalDateEnding"})))
  {
    var q := p.(earnings := seq(|p.earnings|, k requires 0 <= k < |p.earnings| => p.earnings[k] - {"fiscalDateEnding"}));
    forall k | 0 <= k < |p.earnings|
      ensures RowCells(p.earnings[k], EarningsColumns) == RowCells(q.earnings[k], EarningsColumns)
    {
    }
    assert RowLines(p.earnings, EarningsColumns) == RowLines(q.earnings, EarningsColumns);
  }
}
