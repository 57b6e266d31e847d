/** `AlphaVantageRepo`: calendar rows from the Alpha Vantage CSV endpoints,
    their dates normalised, filtered to a set of dates or to an inclusive
    range, and projected onto a fixed list of fields.

    The HTTP request and the CSV decoding are a parameter, `transport`, from
    the query sent to what came back; the repository's only state, the API
    key, is set once by its constructor and never changed, so the repository
    is a value. */
module AlphaVantageRepo {
  import opened Wrappers
  import opened Text
  import opened Calendar
  import opened DateFormat
  import opened Values

  // ---------------------------------------------------------------------
  // _normalize_date
  // ---------------------------------------------------------------------

  /** The formats `_normalize_date` tries, in order, given by their
      separator: "%Y-%m-%d", then "%Y/%m/%d". */
  const DateSeparators: seq<char> := ['-', '/']

  /** What `_normalize_date(value)` returns. A falsy value (None, "") gives
      None; so does any non-string, whose `strip` raises inside the guarded
      block. A string is stripped and parsed with each format in turn. */
  function NormalizedDate(v: Value): (r: Option<Date>)
    ensures r.Some? ==> Valid(r.value)
  {
    if !v.Str? || v.s == "" then None
    else
      var t := Strip(v.s);
      var dashed := ParseWith(t, '-');
      if dashed.Some? then dashed else ParseWith(t, '/')
  }

  /** `_normalize_date`: a loop over the formats that returns the first
      successful parse. */
  method NormalizeDate(v: Value) returns (r: Option<Date>)
    ensures r == NormalizedDate(v)
  {
    if !v.Str? || v.s == "" {
      return None;
    }
    var text := Strip(v.s);
    var i := 0;
    while i < |DateSeparators|
      invariant 0 <= i <= |DateSeparators|
      invariant i > 0 ==> ParseWith(text, '-').None?
      invariant i > 1 ==> ParseWith(text, '/').None?
    {
      var sep := DateSeparators[i];
      assert sep == if i == 0 then '-' else '/';
      var parsed := ParseWith(text, sep);
      if parsed.Some? {
        return parsed;
      }
      i := i + 1;
    }
    return None;
  }

  /** The accepted grammar, both ways: a value normalises to `d` exactly when
      it is a string whose stripped text spells `d` with dashes or with
      slashes (four-digit year; one- or two-digit month; one- or two-digit
      day, or a space and one digit) and `d` exists in the calendar. */
  lemma NormalizedDateExactly(v: Value, d: Date)
    ensures NormalizedDate(v) == Some(d) <==>
      v.Str? && Valid(d) && (Strip(v.s) in Spellings(d, '-') || Strip(v.s) in Spellings(d, '/'))
  {
    if v.Str? {
      var t := Strip(v.s);
      ParseWithExactly(t, '-', d);
      ParseWithExactly(t, '/', d);
    }
  }

  /** `isoformat()` output normalises back to the same date. */
  lemma IsoFormatRoundTrip(d: Date)
    requires Valid(d)
    ensures NormalizedDate(Str(IsoFormat(d))) == Some(d)
  {
    var s := IsoFormat(d);
    StripUnchanged(s);
    assert s == Pad4(d.year) + ['-'] + Pad2(d.month) + ['-'] + Pad2(d.day);
    assert Pad2(d.month) in MonthTexts(d.month) && Pad2(d.day) in DayTexts(d.day);
    assert s in Spellings(d, '-');
    ParseWithExactly(s, '-', d);
  }

  /** A text with no surrounding whitespace is parsed as it stands. */
  lemma NormalizedStripped(t: string)
    requires t != "" && Strip(t) == t
    ensures NormalizedDate(Str(t)) == if ParseWith(t, '-').Some? then ParseWith(t, '-') else ParseWith(t, '/')
  {
  }

  /** A text whose year, separator, month and day fields all match is parsed
      to the date they give, when it exists. */
  lemma ParseWithFields(t: string, sep: char, m: int, k: nat, day: int)
    requires IsSeparator(sep) && |t| >= 5 && t[4] == sep
    requires IsDigit(t[0]) && IsDigit(t[1]) && IsDigit(t[2]) && IsDigit(t[3])
    requires MonthField(t[5..], sep) == Some((m, k)) && DayField(t[6 + k..]) == Some(day)
    ensures var date := Date(FourDigitValue(t), m, day);
      ParseWith(t, sep) == if Valid(date) then Some(date) else None
  {
  }

  /** February 30th does not exist. */
  lemma NoFebruaryThirtieth()
    ensures NormalizedDate(Str("2024-02-30")) == None
  {
    var t := "2024-02-30";
    StripNumber(t);
    NormalizedStripped(t);
    assert ParseWith(t, '/') == None by { assert t[4] == '-'; }
    FebruaryThirtiethDashed(t);
  }

  lemma FebruaryThirtiethDashed(t: string)
    requires t == "2024-02-30"
    ensures ParseWith(t, '-') == None
  {
    var u := t[5..];
    assert |u| == 5 && u[0] == '0' && u[1] == '2' && u[2] == '-';
    var v := t[8..];
    assert |v| == 2 && v[0] == '3' && v[1] == '0';
    ParseWithFields(t, '-', 2, 2, 30);
    assert FourDigitValue(t) == 2024;
  }

  /** Slashes and one-digit fields are accepted. */
  lemma SlashesAndShortFields()
    ensures NormalizedDate(Str("2024/5/2")) == Some(Date(2024, 5, 2))
  {
    var t := "2024/5/2";
    StripNumber(t);
    NormalizedStripped(t);
    assert ParseWith(t, '-') == None by { assert t[4] == '/'; }
    ShortFieldsSlashed(t);
  }

  lemma ShortFieldsSlashed(t: string)
    requires t == "2024/5/2"
    ensures ParseWith(t, '/') == Some(Date(2024, 5, 2))
  {
    var u := t[5..];
    assert |u| == 3 && u[0] == '5' && u[1] == '/';
    var v := t[7..];
    assert |v| == 1 && v[0] == '2';
    ParseWithFields(t, '/', 5, 1, 2);
    assert FourDigitValue(t) == 2024;
  }

  /** A time of day after the date is not accepted. */
  lemma NoTimeOfDay()
    ensures NormalizedDate(Str("2024-05-02 10:00")) == None
  {
    var t := "2024-05-02 10:00";
    StripNumber(t);
    NormalizedStripped(t);
    assert ParseWith(t, '/') == None by { assert t[4] == '-'; }
    TimeOfDayDashed(t);
  }

  lemma TimeOfDayDashed(t: string)
    requires t == "2024-05-02 10:00"
    ensures ParseWith(t, '-') == None
  {
    var u := t[5..];
    assert |u| == 11 && u[0] == '0' && u[1] == '5' && u[2] == '-';
    var v := t[8..];
    assert |v| == 8 && v[0] == '0' && v[1] == '2';
  }

  // ---------------------------------------------------------------------
  // _filter_by_dates and _filter_by_range
  // ---------------------------------------------------------------------

  /** What a filter keeps a row for: its date is one of a set of dates
      (`_filter_by_dates`) or lies in an inclusive range
      (`_filter_by_range`). */
  datatype Criterion = OnDates(targets: set<Date>) | Between(start: Date, end: Date)

  predicate Admits(c: Criterion, d: Date) {
    match c
    case OnDates(targets) => d in targets
    case Between(start, end) => NotAfter(start, d) && NotAfter(d, end)
  }

  /** The date of a row: `_normalize_date(r.get(field, ""))`. */
  function RowDate(r: Record, field: string): Option<Date> {
    NormalizedDate(Get(r, field, Str("")))
  }

  predicate Keeps(c: Criterion, r: Record, field: string) {
    RowDate(r, field).Some? && Admits(c, RowDate(r, field).value)
  }

  /** The rows a filter keeps, in their original order. */
  function Selected(rows: seq<Record>, field: string, c: Criterion): seq<Record> {
    if rows == [] then []
    else
      var last := rows[|rows| - 1];
      Selected(rows[..|rows| - 1], field, c) + (if Keeps(c, last, field) then [last] else [])
  }

  /** Selecting from one more row adds that row when it is kept. */
  lemma SelectedStep(rows: seq<Record>, field: string, c: Criterion, i: nat)
    requires i < |rows|
    ensures Selected(rows[..i + 1], field, c)
         == Selected(rows[..i], field, c) + (if Keeps(c, rows[i], field) then [rows[i]] else [])
  {
    assert rows[..i + 1][..i] == rows[..i];
  }

  /** `_filter_by_dates(rows, date_field, dates)`. */
  method FilterByDates(rows: seq<Record>, field: string, dates: seq<Date>) returns (out: seq<Record>)
    ensures out == Selected(rows, field, OnDates(set d | d in dates))
  {
    var target := set d | d in dates;
    out := [];
    var i := 0;
    while i < |rows|
      invariant 0 <= i <= |rows|
      invariant out == Selected(rows[..i], field, OnDates(target))
    {
      var r := rows[i];
      var d := NormalizeDate(Get(r, field, Str("")));
      SelectedStep(rows, field, OnDates(target), i);
      if d.Some? && d.value in target {
        out := out + [r];
      }
      i := i + 1;
    }
    assert rows[..|rows|] == rows;
  }

  /** `_filter_by_range(rows, date_field, start, end)`. */
  method FilterByRange(rows: seq<Record>, field: string, start: Date, end: Date) returns (out: seq<Record>)
    ensures out == Selected(rows, field, Between(start, end))
  {
    out := [];
    var i := 0;
    while i < |rows|
      invariant 0 <= i <= |rows|
      invariant out == Selected(rows[..i], field, Between(start, end))
    {
      var r := rows[i];
      var d := NormalizeDate(Get(r, field, Str("")));
      SelectedStep(rows, field, Between(start, end), i);
      if d.Some? && NotAfter(start, d.value) && NotAfter(d.value, end) {
        out := out + [r];
      }
      i := i + 1;
    }
    assert rows[..|rows|] == rows;
  }

  /** `a` is `b` with some elements left out and the rest in their order. */
  predicate IsSubsequence<T(==)>(a: seq<T>, b: seq<T>)
    decreases |b|
  {
    a == [] ||
    (b != [] &&
     ((a[|a| - 1] == b[|b| - 1] && IsSubsequence(a[..|a| - 1], b[..|b| - 1]))
      || IsSubsequence(a, b[..|b| - 1])))
  }

  /** One more element at the end of `b` keeps `a` a subsequence of it,
      and so does the same element at the end of both. */
  lemma SubsequenceExtend<T>(a: seq<T>, b: seq<T>, x: T)
    requires IsSubsequence(a, b)
    ensures IsSubsequence(a, b + [x]) && IsSubsequence(a + [x], b + [x])
  {
    assert (b + [x])[..|b|] == b;
    assert (a + [x])[..|a|] == a;
  }

  /** A filter keeps exactly the rows whose date parses and passes. */
  lemma {:induction false} SelectedMembers(rows: seq<Record>, field: string, c: Criterion, r: Record)
    ensures r in Selected(rows, field, c) <==> r in rows && Keeps(c, r, field)
  {
    if rows != [] {
      var init := rows[..|rows| - 1];
      SelectedMembers(init, field, c, r);
      assert rows == init + [rows[|rows| - 1]];
    }
  }

  /** A kept row appears in the result as often as in the input, a dropped
      one not at all: duplicates are kept, not merged. */
  lemma {:induction false} SelectedCounts(rows: seq<Record>, field: string, c: Criterion, r: Record)
    ensures multiset(Selected(rows, field, c))[r] == if Keeps(c, r, field) then multiset(rows)[r] else 0
  {
    if rows != [] {
      var init, last := rows[..|rows| - 1], rows[|rows| - 1];
      SelectedCounts(init, field, c, r);
      assert rows == init + [last];
      assert multiset(rows) == multiset(init) + multiset{last};
      var kept := if Keeps(c, last, field) then [last] else [];
      assert multiset(Selected(rows, field, c)) == multiset(Selected(init, field, c)) + multiset(kept);
    }
  }

  /** A filter keeps the order of the rows it keeps. */
  lemma {:induction false} SelectedSubsequence(rows: seq<Record>, field: string, c: Criterion)
    ensures IsSubsequence(Selected(rows, field, c), rows)
  {
    if rows != [] {
      var init, last := rows[..|rows| - 1], rows[|rows| - 1];
      SelectedSubsequence(init, field, c);
      var s := Selected(init, field, c);
      SubsequenceExtend(s, init, last);
      assert rows == init + [last];
      if Keeps(c, last, field) {
        assert Selected(rows, field, c) == s + [last];
        assert IsSubsequence(s + [last], init + [last]);
      } else {
        assert Selected(rows, field, c) == s;
        assert IsSubsequence(s, init + [last]);
      }
    }
  }

  /** A criterion that admits every date another one admits keeps every row
      the other keeps, in the same order. */
  lemma {:induction false} SelectedMonotone(rows: seq<Record>, field: string, c1: Criterion, c2: Criterion)
    requires forall d :: Valid(d) && Admits(c1, d) ==> Admits(c2, d)
    ensures IsSubsequence(Selected(rows, field, c1), Selected(rows, field, c2))
  {
    if rows != [] {
      var init, last := rows[..|rows| - 1], rows[|rows| - 1];
      SelectedMonotone(init, field, c1, c2);
      var s1, s2 := Selected(init, field, c1), Selected(init, field, c2);
      SubsequenceExtend(s1, s2, last);
      if Keeps(c1, last, field) {
        assert Keeps(c2, last, field);
        assert Selected(rows, field, c1) == s1 + [last] && Selected(rows, field, c2) == s2 + [last];
      } else if Keeps(c2, last, field) {
        assert Selected(rows, field, c1) == s1 && Selected(rows, field, c2) == s2 + [last];
      } else {
        assert Selected(rows, field, c1) == s1 && Selected(rows, field, c2) == s2;
      }
    }
  }

  /** Two criteria that admit the same dates keep the same rows. */
  lemma {:induction false} SelectedAgree(rows: seq<Record>, field: string, c1: Criterion, c2: Criterion)
    requires forall d :: Valid(d) ==> (Admits(c1, d) <==> Admits(c2, d))
    ensures Selected(rows, field, c1) == Selected(rows, field, c2)
  {
    if rows != [] {
      SelectedAgree(rows[..|rows| - 1], field, c1, c2);
    }
  }

  /** A range whose start lies after its end keeps nothing. */
  lemma EmptyRange(rows: seq<Record>, field: string, start: Date, end: Date)
    requires Before(end, start)
    ensures Selected(rows, field, Between(start, end)) == []
  {
    var out := Selected(rows, field, Between(start, end));
    if out != [] {
      SelectedMembers(rows, field, Between(start, end), out[0]);
    }
  }

  // ---------------------------------------------------------------------
  // Windows and projection used by get_*
  // ---------------------------------------------------------------------

  /** The window `get_earnings_this_week` and `get_ipos_this_week` filter
      by: `[min(dates), max(dates)]`, or `[today, today + 7]` when `dates` is
      empty or None. None stands for the OverflowError of `today + 7` past
      9999-12-31. */
  function ThisWeekWindow(dates: seq<Date>, today: Date): (w: Option<Criterion>)
    requires Valid(today)
    ensures w.None? <==> dates == [] && Ordinal(today) + 7 > MaxOrdinal
    ensures w.Some? ==> w.value.Between?
    ensures dates != [] ==> w == Some(Between(Earliest(dates), Latest(dates)))
    ensures dates == [] && w.Some? ==>
      w.value.start == today && Valid(w.value.end) && Ordinal(w.value.end) == Ordinal(today) + 7
  {
    if dates != [] then Some(Between(Earliest(dates), Latest(dates)))
    else
      match AddDays(today, 7)
      case None => None
      case Some(end) => Some(Between(today, end))
  }

  /** Every row `_filter_by_dates` keeps for `dates` is also kept, in the
      same order, by the range filter on the window built from `dates`. */
  lemma WindowCoversDates(rows: seq<Record>, field: string, dates: seq<Date>, today: Date)
    requires Valid(today) && dates != []
    ensures IsSubsequence(Selected(rows, field, OnDates(set d | d in dates)),
                          Selected(rows, field, ThisWeekWindow(dates, today).value))
  {
    SelectedMonotone(rows, field, OnDates(set d | d in dates), ThisWeekWindow(dates, today).value);
  }

  /** The columns `get_earnings_*` keeps. */
  const EarningsFields: seq<string> := ["symbol", "name", "reportDate", "fiscalDateEnding", "estimateEPS", "estimateCurrency"]

  /** The columns `get_ipos_*` keeps. */
  const IpoFields: seq<string> := ["symbol", "name", "ipoDate", "priceRange", "currency"]

  /** `{k: r.get(k, "") for k in fields}`. */
  function Project(r: Record, fields: seq<string>): (p: Record)
    ensures p.Keys == set k | k in fields
    ensures forall k :: k in p ==> p[k] == Get(r, k, Str(""))
  {
    map k | k in fields :: Get(r, k, Str(""))
  }

  /** `[{k: r.get(k, "") for k in fields} for r in rows]`. */
  function ProjectAll(rows: seq<Record>, fields: seq<string>): (ps: seq<Record>)
    ensures |ps| == |rows|
    ensures forall i :: 0 <= i < |rows| ==> ps[i] == Project(rows[i], fields)
  {
    seq(|rows|, i requires 0 <= i < |rows| => Project(rows[i], fields))
  }

  /** Projection keeps a subsequence a subsequence. */
  lemma {:induction false} ProjectAllSubsequence(a: seq<Record>, b: seq<Record>, fields: seq<string>)
    requires IsSubsequence(a, b)
    ensures IsSubsequence(ProjectAll(a, fields), ProjectAll(b, fields))
    decreases |b|
  {
    if a != [] {
      var pa, pb := ProjectAll(a, fields), ProjectAll(b, fields);
      assert ProjectAll(b[..|b| - 1], fields) == pb[..|pb| - 1];
      if a[|a| - 1] == b[|b| - 1] && IsSubsequence(a[..|a| - 1], b[..|b| - 1]) {
        ProjectAllSubsequence(a[..|a| - 1], b[..|b| - 1], fields);
        assert ProjectAll(a[..|a| - 1], fields) == pa[..|pa| - 1];
      } else {
        ProjectAllSubsequence(a, b[..|b| - 1], fields);
      }
    }
  }

  /** Every projected record kept by a filter has exactly the listed keys,
      and its date field, which is among them, still passes the filter. */
  lemma ProjectedSelection(rows: seq<Record>, field: string, c: Criterion, fields: seq<string>)
    requires field in fields
    ensures forall e :: e in ProjectAll(Selected(rows, field, c), fields) ==>
      e.Keys == (set k | k in fields) && Keeps(c, e, field)
  {
    var kept := Selected(rows, field, c);
    forall e | e in ProjectAll(kept, fields)
      ensures e.Keys == (set k | k in fields) && Keeps(c, e, field)
    {
      var i :| 0 <= i < |kept| && e == Project(kept[i], fields);
      SelectedMembers(rows, field, c, kept[i]);
      assert Get(e, field, Str("")) == Get(kept[i], field, Str(""));
    }
  }
  /** Every row the filter keeps is in the projected result, cut down to
      the fields. */
  lemma ProjectedSelectionComplete(rows: seq<Record>, field: string, c: Criterion, fields: seq<string>)
    ensures forall r :: r in rows && Keeps(c, r, field) ==> Project(r, fields) in ProjectAll(Selected(rows, field, c), fields)
  {
    var kept := Selected(rows, field, c);
    forall r | r in rows && Keeps(c, r, field)
      ensures Project(r, fields) in ProjectAll(kept, fields)
    {
      SelectedMembers(rows, field, c, r);
      var i :| 0 <= i < |kept| && kept[i] == r;
      assert ProjectAll(kept, fields)[i] == Project(r, fields);
    }
  }


  // ---------------------------------------------------------------------
  // Requests: _fetch_csv and fetch_*_calendar
  // ---------------------------------------------------------------------

  /** Query parameters of a GET request. */
  type Query = map<string, string>

  /** What the HTTP GET and the CSV decoding in `_fetch_csv` give: the
      request failed (connection error, timeout, error status), the body
      could not be decoded or parsed, or the parsed rows. */
  datatype Response = RequestFailed | Unparsable | Parsed(rows: seq<Record>)

  /** The repository: its API key, `getattr(config, "alphavantage_api_key",
      "") or ""`. */
  datatype Repo = Repo(apiKey: string)

  /** `AlphaVantageRepo(config)`: the configured key, where a missing or
      empty one leaves the repository without a key. */
  function NewRepo(configuredKey: Option<string>): (repo: Repo)
    ensures repo.apiKey != "" <==> configuredKey.Some? && configuredKey.value != ""
    ensures repo.apiKey != "" ==> repo.apiKey == configuredKey.value
  {
    Repo(if configuredKey.Some? then configuredKey.value else "")
  }

  /** The query `_fetch_csv(params)` sends: the parameters plus `apikey`,
      which is the configured key, or "demo" when none is configured, and
      replaces any `apikey` among the parameters. */
  function RequestQuery(repo: Repo, params: Query): (q: Query)
    ensures q.Keys == params.Keys + {"apikey"}
    ensures forall k :: k in params && k != "apikey" ==> q[k] == params[k]
    ensures q["apikey"] != ""
    ensures repo.apiKey != "" ==> q["apikey"] == repo.apiKey
    ensures repo.apiKey == "" ==> q["apikey"] == "demo"
  {
    params["apikey" := if repo.apiKey == "" then "demo" else repo.apiKey]
  }

  /** `_fetch_csv(params)`: the rows that came back, and no rows at all
      when the request or the parsing failed. */
  function FetchCsv(repo: Repo, params: Query, transport: Query -> Response): (rows: seq<Record>)
    ensures transport(RequestQuery(repo, params)).Parsed? ==> rows == transport(RequestQuery(repo, params)).rows
    ensures !transport(RequestQuery(repo, params)).Parsed? ==> rows == []
  {
    match transport(RequestQuery(repo, params))
    case Parsed(rows) => rows
    case _ => []
  }

  const DefaultHorizon := "3month"

  /** Parameters of `fetch_earnings_calendar(horizon, symbol)`: the fixed
      function name and the horizon, plus `symbol` only when one is given
      and it is not empty. */
  function EarningsParams(horizon: string, symbol: Option<string>): (q: Query)
    ensures q.Keys <= {"function", "horizon", "symbol"}
    ensures "function" in q && q["function"] == "EARNINGS_CALENDAR"
    ensures "horizon" in q && q["horizon"] == horizon
    ensures "symbol" in q <==> symbol.Some? && symbol.value != ""
    ensures "symbol" in q ==> q["symbol"] == symbol.value
  {
    var q := map["function" := "EARNINGS_CALENDAR", "horizon" := horizon];
    if symbol.Some? && symbol.value != "" then q["symbol" := symbol.value] else q
  }

  /** Parameters of `fetch_ipo_calendar()`. */
  function IpoParams(): (q: Query)
    ensures q.Keys == {"function"} && q["function"] == "IPO_CALENDAR"
  {
    map["function" := "IPO_CALENDAR"]
  }

  /** `fetch_earnings_calendar(horizon, symbol)`: the rows the transport
      gives for an EARNINGS_CALENDAR query with the horizon and a key, or no
      rows when it failed. */
  function FetchEarningsCalendar(repo: Repo, transport: Query -> Response, horizon: string, symbol: Option<string>): (rows: seq<Record>)
    ensures var q := RequestQuery(repo, EarningsParams(horizon, symbol));
      q["function"] == "EARNINGS_CALENDAR" && q["horizon"] == horizon && q["apikey"] != "" &&
      rows == if transport(q).Parsed? then transport(q).rows else []
  {
    FetchCsv(repo, EarningsParams(horizon, symbol), transport)
  }

  /** `fetch_ipo_calendar()`: the rows the transport gives for a query
      holding only the IPO_CALENDAR function and the key, or no rows when it
      failed. */
  function FetchIpoCalendar(repo: Repo, transport: Query -> Response): (rows: seq<Record>)
    ensures var q := RequestQuery(repo, IpoParams());
      q.Keys == {"function", "apikey"} && q["function"] == "IPO_CALENDAR" && q["apikey"] != "" &&
      rows == if transport(q).Parsed? then transport(q).rows else []
  {
    FetchCsv(repo, IpoParams(), transport)
  }

  // ---------------------------------------------------------------------
  // get_earnings_* and get_ipos_*
  // ---------------------------------------------------------------------

  /** `get_earnings_for_dates(dates, horizon, symbol)`: every record has
      exactly the earnings columns and a `reportDate` that is one of the
      dates, and every fetched row whose `reportDate` is one of them is
      there, cut down to those columns. */
  function GetEarningsForDates(repo: Repo, transport: Query -> Response, dates: seq<Date>,
                               horizon: string, symbol: Option<string>): (r: seq<Record>)
    ensures forall e :: e in r ==>
      e.Keys == (set k | k in EarningsFields) && Keeps(OnDates(set d | d in dates), e, "reportDate")
    ensures forall row :: row in FetchEarningsCalendar(repo, transport, horizon, symbol) && Keeps(OnDates(set d | d in dates), row, "reportDate")
                          ==> Project(row, EarningsFields) in r
  {
    var rows := FetchEarningsCalendar(repo, transport, horizon, symbol);
    var c := OnDates(set d | d in dates);
    ProjectedSelection(rows, "reportDate", c, EarningsFields);
    ProjectedSelectionComplete(rows, "reportDate", c, EarningsFields);
    ProjectAll(Selected(rows, "reportDate", c), EarningsFields)
  }

  /** `get_ipos_for_dates(dates)`: every record has exactly the IPO columns
      and an `ipoDate` that is one of the dates, and every fetched row whose
      `ipoDate` is one of them is there, cut down to those columns. */
  function GetIposForDates(repo: Repo, transport: Query -> Response, dates: seq<Date>): (r: seq<Record>)
    ensures forall e :: e in r ==>
      e.Keys == (set k | k in IpoFields) && Keeps(OnDates(set d | d in dates), e, "ipoDate")
    ensures forall row :: row in FetchIpoCalendar(repo, transport) && Keeps(OnDates(set d | d in dates), row, "ipoDate")
                          ==> Project(row, IpoFields) in r
  {
    var rows := FetchIpoCalendar(repo, transport);
    var c := OnDates(set d | d in dates);
    ProjectedSelection(rows, "ipoDate", c, IpoFields);
    ProjectedSelectionComplete(rows, "ipoDate", c, IpoFields);
    ProjectAll(Selected(rows, "ipoDate", c), IpoFields)
  }

  /** `get_earnings_this_week(dates, horizon, symbol)`; `today` is the
      process's local date (`date.today()`), used only when `dates` is empty. */
  function GetEarningsThisWeek(repo: Repo, transport: Query -> Response, dates: seq<Date>, today: Date,
                               horizon: string, symbol: Option<string>): (r: Option<seq<Record>>)
    requires Valid(today)
    ensures r.None? <==> dates == [] && Ordinal(today) + 7 > MaxOrdinal
  {
    var rows := FetchEarningsCalendar(repo, transport, horizon, symbol);
    match ThisWeekWindow(dates, today)
    case None => None
    case Some(window) => Some(ProjectAll(Selected(rows, "reportDate", window), EarningsFields))
  }

  /** `get_ipos_this_week(dates)`. */
  function GetIposThisWeek(repo: Repo, transport: Query -> Response, dates: seq<Date>, today: Date): (r: Option<seq<Record>>)
    requires Valid(today)
    ensures r.None? <==> dates == [] && Ordinal(today) + 7 > MaxOrdinal
  {
    var rows := FetchIpoCalendar(repo, transport);
    match ThisWeekWindow(dates, today)
    case None => None
    case Some(window) => Some(ProjectAll(Selected(rows, "ipoDate", window), IpoFields))
  }

  /** Every earnings record `get_earnings_this_week` returns has exactly the
      earnings columns and a `reportDate` inside the window, and every
      fetched row whose `reportDate` lies inside the window, both ends
      included, comes back projected. */
  lemma EarningsThisWeekInWindow(repo: Repo, transport: Query -> Response, dates: seq<Date>, today: Date,
                                 horizon: string, symbol: Option<string>)
    requires Valid(today)
    requires GetEarningsThisWeek(repo, transport, dates, today, horizon, symbol).Some?
    ensures forall e :: e in GetEarningsThisWeek(repo, transport, dates, today, horizon, symbol).value ==>
      e.Keys == (set k | k in EarningsFields) && Keeps(ThisWeekWindow(dates, today).value, e, "reportDate")
    ensures forall row :: row in FetchEarningsCalendar(repo, transport, horizon, symbol) &&
                          Keeps(ThisWeekWindow(dates, today).value, row, "reportDate")
                          ==> Project(row, EarningsFields) in GetEarningsThisWeek(repo, transport, dates, today, horizon, symbol).value
  {
    var rows := FetchEarningsCalendar(repo, transport, horizon, symbol);
    ProjectedSelection(rows, "reportDate", ThisWeekWindow(dates, today).value, EarningsFields);
    ProjectedSelectionComplete(rows, "reportDate", ThisWeekWindow(dates, today).value, EarningsFields);
  }

  /** Every IPO record `get_ipos_this_week` returns has exactly the IPO
      columns and an `ipoDate` inside the window, and every fetched row
      whose `ipoDate` lies inside the window, both ends included, comes back
      projected. */
  lemma IposThisWeekInWindow(repo: Repo, transport: Query -> Response, dates: seq<Date>, today: Date)
    requires Valid(today)
    requires GetIposThisWeek(repo, transport, dates, today).Some?
    ensures forall e :: e in GetIposThisWeek(repo, transport, dates, today).value ==>
      e.Keys == (set k | k in IpoFields) && Keeps(ThisWeekWindow(dates, today).value, e, "ipoDate")
    ensures forall row :: row in FetchIpoCalendar(repo, transport) && Keeps(ThisWeekWindow(dates, today).value, row, "ipoDate")
                          ==> Project(row, IpoFields) in GetIposThisWeek(repo, transport, dates, today).value
  {
    var rows := FetchIpoCalendar(repo, transport);
    ProjectedSelection(rows, "ipoDate", ThisWeekWindow(dates, today).value, IpoFields);
    ProjectedSelectionComplete(rows, "ipoDate", ThisWeekWindow(dates, today).value, IpoFields);
  }

  /** For the same non-empty `dates`, the `for_dates` result is the
      `this_week` result with some records left out, the rest in order. */
  lemma ForDatesWithinThisWeek(repo: Repo, transport: Query -> Response, dates: seq<Date>, today: Date,
                               horizon: string, symbol: Option<string>)
    requires Valid(today) && dates != []
    ensures IsSubsequence(GetEarningsForDates(repo, transport, dates, horizon, symbol),
                          GetEarningsThisWeek(repo, transport, dates, today, horizon, symbol).value)
    ensures IsSubsequence(GetIposForDates(repo, transport, dates),
                          GetIposThisWeek(repo, transport, dates, today).value)
  {
    var earnings := FetchEarningsCalendar(repo, transport, horizon, symbol);
    WindowCoversDates(earnings, "reportDate", dates, today);
    ProjectAllSubsequence(Selected(earnings, "reportDate", OnDates(set d | d in dates)),
                          Selected(earnings, "reportDate", ThisWeekWindow(dates, today).value), EarningsFields);
    var ipos := FetchIpoCalendar(repo, transport);
    WindowCoversDates(ipos, "ipoDate", dates, today);
    ProjectAllSubsequence(Selected(ipos, "ipoDate", OnDates(set d | d in dates)),
                          Selected(ipos, "ipoDate", ThisWeekWindow(dates, today).value), IpoFields);
  }
}
