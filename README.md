# Daily market summary core of TempestShaw/Dbot, in Dafny

This project models the data path behind the bot's daily market summary.
Earnings and IPO calendar rows come back from the Alpha Vantage CSV
endpoints. Their dates are parsed the way `datetime.strptime` parses them,
and the rows are filtered to a set of dates or an inclusive date range. The
kept rows are projected onto fixed columns and rendered as Markdown tables
inside the daily report. The model also covers how the bot's settings are
read from the environment.

Modules, following the program's structure:

- `Wrappers`: `Option` and `Result`.
- `Text`: the Python string built-ins the core relies on:
  - `str.isspace` and `str.strip`;
  - `str.split` on one character, and `str.join`;
  - `int()` on text, and `str()` on integers.
- `Calendar`: `datetime.date` as the core uses it:
  - the range 0001-01-01 to 9999-12-31;
  - tuple order;
  - day numbers, as in `toordinal`;
  - `+ timedelta(days=n)`, including its OverflowError;
  - `min`, `max` and `isoformat`.
- `DateFormat`: `strptime(text, "%Y-%m-%d")` and `strptime(text, "%Y/%m/%d")`, including the exact grammar CPython's regular expressions accept.
- `Values`: dictionary values (`str`, `int`, `None`), records, `dict.get` and `str()`.
- `AlphaVantageRepo`: `discord_finance_bot/repositories/alphavantage_repo.py`.
- `DataParser`: `discord_finance_bot/utils/data_parser.py`.
- `MessageService`: `discord_finance_bot/services/message_service.py`. The service layer in `alphavantage_service.py` only delegates, so it is folded in.
- `Configuration`: `discord_finance_bot/config.py`.

Each core file keeps its own form:

- **Loops become methods.** `_normalize_date`, `_filter_by_dates`, `_filter_by_range` and `to_markdown_table` loop in the source, so they are methods with loops here. Each is proved equal to a specification function: `NormalizedDate`, `Selected` or `MarkdownTable`. The rest of the model and the lemmas use those functions.
- **The rest is functions.** The projections, the message service and `load_config` are expressions and comprehensions in the source, so they are functions here.
- **State becomes parameters.** The repository and the service set their fields once and never change them. The repository is therefore a value (its API key). The service is its inputs:
  - the transport, which turns a query into the response of the HTTP GET plus CSV decoding;
  - the scraped sector records;
  - today's date.

Some behaviour of the code is easy to misread, and the model follows the code in each case:

- **`None` cells.** A present `None` value renders as the text `None` (`str(obj.get(h, ""))`), not as an empty cell. Only a missing key gives an empty cell.
- **No API key in `Config`.** `Config` has no API key field. As loaded by `load_config`, the repository's key is therefore always empty and every request sends `apikey=demo`.
- **`get_*_this_week` without dates.** These calls take "today" from the process's local date (`date.today()`), not from the configured time zone. The model passes it in as a parameter.
- **Two filters.** The repository offers two filters: membership in a set of dates, and an inclusive range. The message service uses the range form, through `get_*_this_week`.

## Model

| member | source | states |
|---|---|---|
| Text.Strip | discord_finance_bot/repositories/alphavantage_repo.py:53 | `str.strip()`: the result is a slice of the input with no whitespace at either end, and everything cut off is whitespace |
| Text.StripIdempotent | discord_finance_bot/config.py:30 | stripping twice is stripping once |
| Text.Join | discord_finance_bot/utils/data_parser.py:9-14 | `sep.join(parts)`. It has no contract of its own: `Text.JoinAppend` states that joining a concatenation of lists is joining each part with the separator between, and `Text.SplitJoin` states that splitting a join of separator-free pieces gives the pieces back |
| Text.JoinAppend | discord_finance_bot/utils/data_parser.py:9-14 | joining `a + b` with a separator is the join of `a`, the separator, then the join of `b`, for any two non-empty lists |
| Text.Split | discord_finance_bot/config.py:30 | `str.split(sep)`: at least one piece, no piece holds the separator, and joining the pieces gives the text back |
| Text.SplitJoin | discord_finance_bot/config.py:30 | splitting a join of separator-free pieces gives the pieces back |
| Text.IntToString | discord_finance_bot/utils/data_parser.py:13 | `str(i)` for an integer is its canonical decimal spelling: a minus sign exactly when `i` is negative, then digits with no leading zero, and "0" only on its own |
| Text.CanonicalDecimalRoundTrip | discord_finance_bot/utils/data_parser.py:13 | every canonical decimal spelling is `str()` of the integer `int()` reads from it. With `int(str(i)) == i`, this makes `str()` a one-to-one match between integers and canonical spellings |
| Text.IntToStringRoundTrip | discord_finance_bot/config.py:29 | `int(str(i)) == i` for every integer |
| Text.ParseInt | discord_finance_bot/config.py:29 | `int()` on text: any result means the text holds a digit and no information separator (U+001C to U+001F). CPython's `int()` turns other Unicode whitespace into spaces but skips only ASCII whitespace, so these four characters make it raise anywhere in the text |
| Text.InformationSeparatorRefused | discord_finance_bot/config.py:29 | a text holding any of U+001C to U+001F is refused by `int()` |
| Text.ParseIntNeedsDigit | discord_finance_bot/config.py:29 | `int()` raises on every text without a digit |
| Calendar.BeforeMatchesOrdinal | discord_finance_bot/repositories/alphavantage_repo.py:73 | comparing dates in tuple order is comparing their day numbers |
| Calendar.OrdinalRange | discord_finance_bot/repositories/alphavantage_repo.py:102 | every representable date has a day number from 1 to that of 9999-12-31 |
| Calendar.Successor | discord_finance_bot/services/message_service.py:26 | the next day, rolling over month and year ends: later than the date, and valid unless it passes year 9999 |
| Calendar.SuccessorIsNext | discord_finance_bot/services/message_service.py:26 | no valid date lies strictly between a date and its successor |
| Calendar.AddDays | discord_finance_bot/repositories/alphavantage_repo.py:102 | `d + timedelta(days=n)` raises exactly when the day number would pass 9999-12-31; otherwise it is the valid date whose day number is `n` more |
| Calendar.Earliest | discord_finance_bot/repositories/alphavantage_repo.py:99 | `min(dates)` is one of the dates and comes no later than any of them |
| Calendar.Latest | discord_finance_bot/repositories/alphavantage_repo.py:99 | `max(dates)` is one of the dates and comes no earlier than any of them |
| Calendar.IsoFormat | discord_finance_bot/services/message_service.py:35 | `isoformat()` gives ten characters: digits, with dashes at positions 4 and 7 |
| DateFormat.ParseWith | discord_finance_bot/repositories/alphavantage_repo.py:53 | `strptime(...).date()` only ever yields dates that exist |
| DateFormat.ParseWithExactly | discord_finance_bot/repositories/alphavantage_repo.py:53 | `strptime` with one separator accepts a text exactly when it is a spelling of an existing date. The year has four digits. The month has two digits, or one below 10. The day has two digits, or one digit, or a space and one digit, below 10 |
| Values.Get | discord_finance_bot/utils/data_parser.py:13 | `dict.get(key, default)`: the stored value when the key is present, otherwise the default |
| Values.Show | discord_finance_bot/utils/data_parser.py:13 | `str()` gives a string as itself, `None` as "None", and an integer as its canonical decimal spelling (`Text.IntToString`), which `int()` reads back as the same integer |
| AlphaVantageRepo.NormalizedDate | discord_finance_bot/repositories/alphavantage_repo.py:47-56 | `_normalize_date` never raises, and any date it returns exists |
| AlphaVantageRepo.NormalizeDate | discord_finance_bot/repositories/alphavantage_repo.py:47-56 | the loop over the two formats, which returns the first successful parse, computes `NormalizedDate` |
| AlphaVantageRepo.NormalizedDateExactly | discord_finance_bot/repositories/alphavantage_repo.py:49-56 | a value normalises to `d` if and only if it is a string whose stripped text spells `d` with dashes or with slashes and `d` exists. Empty, missing and non-string values give None |
| AlphaVantageRepo.IsoFormatRoundTrip | discord_finance_bot/repositories/alphavantage_repo.py:51-53 | an `isoformat()` string normalises back to the same date |
| AlphaVantageRepo.NoFebruaryThirtieth | discord_finance_bot/repositories/alphavantage_repo.py:52-55 | "2024-02-30" is refused without an exception |
| AlphaVantageRepo.SlashesAndShortFields | discord_finance_bot/repositories/alphavantage_repo.py:51-53 | "2024/5/2" is read as 2 May 2024 |
| AlphaVantageRepo.NoTimeOfDay | discord_finance_bot/repositories/alphavantage_repo.py:51-55 | "2024-05-02 10:00" is refused, because data is left over after the date |
| AlphaVantageRepo.FilterByDates | discord_finance_bot/repositories/alphavantage_repo.py:58-66 | the loop that appends each row whose parsed date is in `set(dates)` computes `Selected` with the date-set criterion |
| AlphaVantageRepo.FilterByRange | discord_finance_bot/repositories/alphavantage_repo.py:68-75 | the loop that appends each row with `start <= d <= end` computes `Selected` with the inclusive-range criterion |
| AlphaVantageRepo.SelectedMembers | discord_finance_bot/repositories/alphavantage_repo.py:62-65 | a row is kept if and only if it is an input row whose date field parses to a date the criterion admits; rows with a missing or unparsable date are dropped |
| AlphaVantageRepo.SelectedCounts | discord_finance_bot/repositories/alphavantage_repo.py:58-75 | each row occurs in the output exactly as often as in the input when its date passes the filter, and not at all otherwise: duplicates are kept, never merged |
| AlphaVantageRepo.SelectedSubsequence | discord_finance_bot/repositories/alphavantage_repo.py:58-75 | the kept rows are a subsequence of the input: original order, nothing added |
| AlphaVantageRepo.SelectedMonotone | discord_finance_bot/repositories/alphavantage_repo.py:58-75 | a criterion that admits more dates keeps a supersequence of the rows |
| AlphaVantageRepo.SelectedAgree | discord_finance_bot/repositories/alphavantage_repo.py:58-75 | two criteria that admit the same valid dates keep the same rows |
| AlphaVantageRepo.EmptyRange | discord_finance_bot/repositories/alphavantage_repo.py:68-75 | a range whose start lies after its end keeps nothing |
| AlphaVantageRepo.ThisWeekWindow | discord_finance_bot/repositories/alphavantage_repo.py:98-102 | the window is `[min(dates), max(dates)]` for non-empty dates. Otherwise it starts today and ends at the date seven days later, and it fails only when that date would pass 9999-12-31 |
| AlphaVantageRepo.WindowCoversDates | discord_finance_bot/repositories/alphavantage_repo.py:98-104 | every row the date-set filter keeps for `dates` is also kept, in the same order, by the range filter on the window of `dates` |
| AlphaVantageRepo.Project | discord_finance_bot/repositories/alphavantage_repo.py:81 | a projected record has exactly the listed keys, each value taken from the row, or "" when the row lacks it |
| AlphaVantageRepo.ProjectAll | discord_finance_bot/repositories/alphavantage_repo.py:81 | one projected record per kept row, in the same order |
| AlphaVantageRepo.ProjectAllSubsequence | discord_finance_bot/repositories/alphavantage_repo.py:81 | projecting both sides keeps a subsequence a subsequence |
| AlphaVantageRepo.ProjectedSelectionComplete | discord_finance_bot/repositories/alphavantage_repo.py:77-87 | every input row whose date passes the filter has its projection among the returned records |
| AlphaVantageRepo.ProjectedSelection | discord_finance_bot/repositories/alphavantage_repo.py:104-106 | every record returned after filtering and projecting has exactly the listed keys, and its date field still passes the filter |
| AlphaVantageRepo.NewRepo | discord_finance_bot/repositories/alphavantage_repo.py:14-16 | the repository's key is non-empty if and only if a non-empty key is configured, and then it is that key |
| AlphaVantageRepo.RequestQuery | discord_finance_bot/repositories/alphavantage_repo.py:19-21 | the query is the parameters plus `apikey`. `apikey` is the configured key, or "demo" when none is configured, and it overrides any `apikey` among the parameters |
| AlphaVantageRepo.FetchCsv | discord_finance_bot/repositories/alphavantage_repo.py:22-35 | a failed request or a failed parse yields no rows; otherwise the parsed rows come back |
| AlphaVantageRepo.EarningsParams | discord_finance_bot/repositories/alphavantage_repo.py:37-41 | the function is fixed to EARNINGS_CALENDAR and the horizon is passed on. `symbol` is present if and only if a non-empty symbol was given |
| AlphaVantageRepo.IpoParams | discord_finance_bot/repositories/alphavantage_repo.py:43-45 | the only parameter is `function=IPO_CALENDAR` |
| AlphaVantageRepo.FetchEarningsCalendar | discord_finance_bot/repositories/alphavantage_repo.py:37-41 | the request asks for EARNINGS_CALENDAR with the given horizon and a non-empty `apikey`; the rows are the transport's parsed rows for that query, or none when the request or the parse fails |
| AlphaVantageRepo.FetchIpoCalendar | discord_finance_bot/repositories/alphavantage_repo.py:43-45 | the request carries exactly `function=IPO_CALENDAR` and a non-empty `apikey`; the rows are the transport's parsed rows for that query, or none on failure |
| AlphaVantageRepo.GetEarningsForDates | discord_finance_bot/repositories/alphavantage_repo.py:77-81 | every returned record has exactly the six earnings columns and a `reportDate` among the given dates, and every fetched row whose `reportDate` is among them comes back projected |
| AlphaVantageRepo.GetIposForDates | discord_finance_bot/repositories/alphavantage_repo.py:83-87 | every returned record has exactly the five IPO columns and an `ipoDate` among the given dates, and every fetched row whose `ipoDate` is among them comes back projected |
| AlphaVantageRepo.GetEarningsThisWeek | discord_finance_bot/repositories/alphavantage_repo.py:89-106 | `get_earnings_this_week` fails only when no dates are given and today plus seven days passes 9999-12-31 |
| AlphaVantageRepo.GetIposThisWeek | discord_finance_bot/repositories/alphavantage_repo.py:108-120 | `get_ipos_this_week` fails only when no dates are given and today plus seven days passes 9999-12-31 |
| AlphaVantageRepo.EarningsThisWeekInWindow | discord_finance_bot/repositories/alphavantage_repo.py:96-106 | every returned earnings record has exactly the six earnings columns and a `reportDate` inside the window. Every fetched row whose `reportDate` lies inside the window, both ends included, comes back projected |
| AlphaVantageRepo.IposThisWeekInWindow | discord_finance_bot/repositories/alphavantage_repo.py:110-120 | every returned IPO record has exactly the five IPO columns and an `ipoDate` inside the window. Every fetched row whose `ipoDate` lies inside the window, both ends included, comes back projected |
| AlphaVantageRepo.ForDatesWithinThisWeek | discord_finance_bot/repositories/alphavantage_repo.py:77-120 | for the same non-empty dates and the same calendar response (one transport serves both requests), `get_*_for_dates` returns a subsequence of what `get_*_this_week` returns |
| DataParser.RowCells | discord_finance_bot/utils/data_parser.py:13 | one cell per header, in header order: `str()` of the item's value, or "" when the key is missing |
| DataParser.MarkdownTable | discord_finance_bot/utils/data_parser.py:4-14 | the output is exactly "No data." if and only if the item list is empty. Any other output starts with a pipe |
| DataParser.ToMarkdownTable | discord_finance_bot/utils/data_parser.py:4-14 | the loop that appends one line per item, followed by the newline join, computes `MarkdownTable` |
| DataParser.TableReadBack | discord_finance_bot/utils/data_parser.py:9-14 | when nothing holds a newline, a non-empty table splits into `len(items) + 2` lines. Line 0 is `"| " + " | ".join(headers) + " |"`, line 1 is the separator, and line `k + 2` is the line of `items[k]` |
| DataParser.SeparatorCount | discord_finance_bot/utils/data_parser.py:10 | the separator line holds exactly one "---" per header |
| DataParser.FramedReadBack | discord_finance_bot/utils/data_parser.py:9-10 | when no cell holds a pipe, a line splits at its pipes into an empty piece, each cell between single spaces, and an empty piece |
| DataParser.RowReadBack | discord_finance_bot/utils/data_parser.py:12-13 | an item's line holds exactly `len(headers)` cells. Cell `i` is `str()` of the item's value for `headers[i]`, or "" when the key is missing |
| DataParser.OutputLinesJoined | discord_finance_bot/utils/data_parser.py:6-14 | the output, empty list or not, is its lines joined by newlines, and no line holds a newline when no header or cell does |
| DataParser.TableIgnoresOtherKeys | discord_finance_bot/utils/data_parser.py:12-13 | keys of an item that are not headers never affect the output |
| MessageService.DailyDates | discord_finance_bot/services/message_service.py:25-26 | `[today, today+1, today+2]` has three valid dates with day numbers today, today+1 and today+2. It fails exactly when a day would pass 9999-12-31 |
| MessageService.DailyDatesConsecutive | discord_finance_bot/services/message_service.py:26 | the three days are strictly increasing and each is the calendar successor of the one before, across month and year ends. They are exactly the valid dates from the first to the last |
| MessageService.DailyWindow | discord_finance_bot/services/message_service.py:26-29 | the window the repository builds from the three days runs from today to the day after tomorrow |
| MessageService.PayloadJson | discord_finance_bot/services/message_service.py:31-36 | the payload has exactly the keys `top_sectors_details`, `earnings`, `ipos` and `dates` |
| MessageService.DailySummary | discord_finance_bot/services/message_service.py:19-56 | the JSON builder, sync or async, fails only on date overflow past 9999-12-31 |
| MessageService.PayloadDates | discord_finance_bot/services/message_service.py:35 | `dates` holds three strings: the `isoformat()` spellings of today and the two days after, in order, and each normalises back to its day. The sector records pass through unchanged |
| MessageService.PayloadRowsInWindow | discord_finance_bot/services/message_service.py:28-29 | every earnings record has the earnings columns and a `reportDate` among the three days. Every IPO record has the IPO columns and an `ipoDate` among the three days |
| MessageService.PayloadRowsComplete | discord_finance_bot/services/message_service.py:28-29 | nothing fetched for the three days is lost: every fetched earnings row whose `reportDate` is one of the three days has its projection among the payload's earnings, and every fetched IPO row whose `ipoDate` is one of them has its projection among the payload's IPOs |
| MessageService.DailySummaryText | discord_finance_bot/services/message_service.py:58-131 | the text builder, sync or async, fails only on date overflow past 9999-12-31 |
| MessageService.SectorRecords | discord_finance_bot/services/message_service.py:75 | `payload.get("top_sectors_details") or []`: the sector records when present, otherwise the empty list |
| MessageService.SummaryText | discord_finance_bot/services/message_service.py:89-94 | the report starts with the sector title line and ends with a blank line, the IPO title and the IPO table |
| MessageService.SummarySections | discord_finance_bot/services/message_service.py:73-94 | the report's lines always come in this order: sector title and table, blank line, the ", "-joined dates line, blank line, earnings title and table, blank line, IPO title and table |
| MessageService.EmptySummary | discord_finance_bot/services/message_service.py:75 | with None or no sector records and no earnings or IPO rows, the report is ten lines, three of them "No data.", with no pipe anywhere |
| MessageService.FiscalDateEndingNotShown | discord_finance_bot/services/message_service.py:64-67 | `fiscalDateEnding` never reaches the report: dropping it from every earnings record leaves the text unchanged |
| Configuration.NewConfig | discord_finance_bot/config.py:7-12 | the dataclass's time zone defaults to "Asia/Shanghai"; the other fields are as given |
| Configuration.Getenv | discord_finance_bot/config.py:24-27 | `os.getenv(name, default)`: the variable's value when it is set (even when empty), otherwise the default |
| Configuration.GetenvOptional | discord_finance_bot/config.py:25 | `os.getenv(name)`: a value exactly when the variable is set, and then it is the variable's value |
| Configuration.StrippedNonBlank | discord_finance_bot/config.py:30 | every kept entry is non-empty, already stripped and the stripped form of an input piece, and the stripped form of every piece that is not blank is kept |
| Configuration.SelectedStocks | discord_finance_bot/config.py:30 | no ticker is empty, has surrounding whitespace or holds a comma. A ticker is kept if and only if it is the stripped form of a non-blank comma-separated piece of the text |
| Configuration.StrippedNonBlankAppend | discord_finance_bot/config.py:30 | the comprehension works piece by piece: filtering a concatenation concatenates the results, so order and repeats are kept |
| Configuration.SelectedStocksAppend | discord_finance_bot/config.py:30 | the tickers of `x + "," + y` are the tickers of `x` followed by those of `y` |
| Configuration.SelectedStocksSingle | discord_finance_bot/config.py:30 | a piece without a comma gives its stripped form as the only ticker, or no ticker when it is blank |
| Configuration.SelectedStocksRoundTrip | discord_finance_bot/config.py:30 | a clean ticker list joined with commas reads back as the same list, in the same order |
| Configuration.SelectedStocksIdempotent | discord_finance_bot/config.py:30 | re-reading the comma-joined ticker list gives the same list |
| Configuration.ChannelId | discord_finance_bot/config.py:29 | the channel id is None if and only if the variable is unset or empty. It is an integer if and only if `int()` accepts the text, and then it is the integer `int()` returns. Any other text, including one holding U+001C to U+001F, is an error |
| Configuration.LoadConfig | discord_finance_bot/config.py:15-37 | `load_config` fails if and only if the channel id is invalid. Otherwise the channel id is the one read from the variable, and token, time zone and tickers come from the variables or their defaults |
| Configuration.LoadConfigDefaults | discord_finance_bot/config.py:24-30 | with nothing set: token "", channel id None, tickers AAPL, MSFT and GOOGL, time zone "Asia/Shanghai" |
| Configuration.ChannelIdRoundTrip | discord_finance_bot/config.py:29 | a channel id written by `str(n)` loads as `n` |
| Configuration.ChannelIdWithSeparator | discord_finance_bot/config.py:29 | a channel id holding any of U+001C to U+001F makes `load_config` fail with that text |
| Configuration.ChannelIdWithoutDigits | discord_finance_bot/config.py:29 | a non-empty channel id with no digit makes `load_config` fail |

## Left out

- **HTTP and CSV decoding** (`requests.get`, `raise_for_status`, `csv.DictReader`) are foreign library calls. They are the `transport` parameter. Its result is a failed request, an unparsable body, or parsed rows.
- **Extra CSV fields.** `DictReader` stores the extra fields of an overlong row under the key None. Those keys are not modelled, because they can never be a column the core reads.
- **Logging** is left out. This covers the missing-key warning and the exception logs in `_fetch_csv`, and the `print` in the async JSON builder. It has no effect on results.
- **Clock and time zones.** The wall clock and the time zones (`datetime.now(ZoneInfo(...))`, `date.today()`) are not modelled. Today's date is a parameter.
- **Sector scraping** is an opaque input to the message service. The crawler repository in this code defines no sector methods at all.
- **Async versions.** The async builders differ from the sync ones only in how the sector list is fetched, and in a larger scrape limit. One function models each pair, and concurrency is not modelled.
- **`dates=None`.** `get_*_this_week(dates=None)` and `get_*_this_week([])` take the same branch. The model passes an empty list for both.
- **Unicode digits.** `strptime` and `int()` also accept non-ASCII decimal digits. The model accepts ASCII digits only.
- **`int()` limits.** `int()`'s 4300-digit limit is not modelled.
- **Dict order.** The key order of the projected dictionaries and of the payload is not modelled: records are maps, and key sets are stated instead.
- **`json.dumps`.** The JSON serialisation of the payload is not modelled beyond its shape (`PayloadJson`).
- **Other `getattr` results.** `NewRepo` takes the configured API key as an option. Any value of `getattr(config, "alphavantage_api_key", "")` other than a string or a missing attribute is not modelled.
- **Thin wrappers and placeholder repositories** are not part of this model: the Discord controllers, the scheduler, the logger, the Yahoo and Futu repositories and the browser test script.
- GetEarningsThisWeek: its own contract states only when it fails. What it returns is stated by `EarningsThisWeekInWindow` (only and all the fetched rows inside the window, projected) and `ForDatesWithinThisWeek`.
- GetIposThisWeek: its own contract states only when it fails. What it returns is stated by `IposThisWeekInWindow` (only and all the fetched rows inside the window, projected) and `ForDatesWithinThisWeek`.
- DailySummary: its own contract states only when it fails. The payload's contents are stated by `PayloadDates`, `PayloadRowsInWindow` (every record lies on one of the three days), `PayloadRowsComplete` (every fetched row on one of them is there) and `PayloadJson`.
- DailySummaryText: its own contract states only when it fails. The report's layout is stated by `SummarySections` and `EmptySummary`.
