# Revenue lookup: ticker resolution and the revenue-tag waterfall

A model of the decision logic of a short reporting script that asks the SEC
data API for a company's latest annual revenue. Given a ticker, the script
upper-cases it, finds the first record of the company directory with that
ticker, and renders its CIK (the SEC filer identifier) as a ten-digit,
zero-padded string. It then tries four US-GAAP concept tags in priority
order. For each tag it reads the `USD` series of the facts document, keeps
the `10-K` (annual report) entries, sorts them by `end` date, newest first,
and reports the first entry's `val` with the tag's name. A tag that fails
in any way is skipped. When every tag fails the answer is "none".

The network is abstracted away. The facts endpoint is a parameter
`fetch: (cik, tag) -> Fetch`. A `Fetch` is either a request that raised or
a response with a status and an already-decoded body. The company directory
is a sequence of `(ticker, cik_str)` records in the order the JSON object
yields them.

Modules, one per component:

- `Text`: the Python string behaviour the script relies on. This covers
  string `<` (lexicographic by code point, with its order lemmas),
  `str.upper` on ASCII, `str(int)` and `str.zfill`.
- `IsoDates`: for `YYYY-MM-DD` strings, string order is calendar order.
  This is why sorting on the raw `end` string picks the latest period.
- `ConceptFacts`: one waterfall attempt. It covers the 10-K filter, the
  stable newest-first sort and its head, and `TryTag` with the reason a
  tag is skipped.
- `RevenueWaterfall`: the priority list, the first-success fallback
  (`FirstFound`), and the loop `GetRevenueWaterfall` proved equal to it.
- `TickerResolver`: CIK rendering, the first-match lookup `LookupCik`, and
  the directory scan `FindCik` proved equal to it.
- `PilotRun`: a whole run. It halts when the ticker is unknown, and
  otherwise chooses the revenue line (figure in billions or millions, or
  "not found").

Three details of the code decide the result:

- `sorted(..., reverse=True)` is stable. The entry chosen is therefore the
  FIRST 10-K entry with the latest end date
  (`ConceptFacts.IsLatestAnnual`).
- Only the exact form string `10-K` counts as annual. An amended `10-K/A`
  entry is filtered out.
- The query ticker is upper-cased. Directory tickers are compared exactly
  as stored.

## Model

| member | source | states |
|---|---|---|
| `Text.StrLessTotal` | test_revenue.py:44 | the string comparison used as the sort key is total: for any two end strings one is smaller or they are equal |
| `Text.StrLessTransitive` | test_revenue.py:44 | the string comparison used as the sort key is transitive |
| `Text.StrLessEqIsNotGreater` | test_revenue.py:44 | `a <= b` holds exactly when `b < a` does not, so "not later" and "at most" agree |
| `IsoDates.IsoDateOrder` | test_revenue.py:43-44 | for two ISO `YYYY-MM-DD` dates, string `<` is calendar order (year, then month, then day), and equal strings mean the same day |
| `ConceptFacts.Annual` | test_revenue.py:37-40 | the comprehension keeps an entry of the USD series exactly when its `form` is `10-K`, and keeps no more entries than the series has |
| `ConceptFacts.AnnualMultiplicity` | test_revenue.py:37-40 | every 10-K entry is kept as many times as the series holds it, and no other entry is kept |
| `ConceptFacts.AnnualConcat` | test_revenue.py:37-40 | filtering a concatenation concatenates the filtered parts, so the 10-K entries keep their series order |
| `ConceptFacts.SortByEndDesc` | test_revenue.py:44 | the sort returns a permutation of the 10-K entries, and every one of them still has an end date |
| `ConceptFacts.SortByEndDescSorted` | test_revenue.py:44 | the sort's result is ordered by end date, newest first |
| `ConceptFacts.SortHeadIsLatestAnnual` | test_revenue.py:37-44 | element `[0]` of the sorted 10-K entries is the first entry of the USD series that is a 10-K entry with an end date not earlier than any 10-K entry's, and strictly later than every earlier 10-K entry's |
| `ConceptFacts.LatestAnnualIsMostRecent` | test_revenue.py:43-44 | when all 10-K end dates are ISO dates, no 10-K entry ends on a later calendar day than the chosen one, and every 10-K entry before it ends on an earlier day |
| `ConceptFacts.IsLatestAnnualUnique` | test_revenue.py:44 | at most one entry is the first of the latest, so the tie-break is fully determined |
| `ConceptFacts.TryTag` | test_revenue.py:28-47 | an attempt finds a value only from a status-200 JSON response with a `units` key and a `USD` series; the annual-data reasons for skipping arise only from such a response |
| `ConceptFacts.TryTagFoundIsLatest` | test_revenue.py:32-45 | a value found for a tag is the `val` of the first latest 10-K entry of that tag's USD series; non-10-K entries are never chosen |
| `ConceptFacts.TryTagFindsLatest` | test_revenue.py:32-45 | conversely, when the first latest 10-K entry has a `val`, the attempt returns exactly that value |
| `ConceptFacts.TryTagNoAnnual` | test_revenue.py:37-42 | a served USD series is skipped for lack of annual data exactly when none of its entries has form `10-K` |
| `ConceptFacts.LaterAnnualEndWins` | test_revenue.py:37-45 | with 10-K entries ending 2022-09-24 (394328000000) and 2023-09-30 (383285000000) and a later 10-Q entry, the 2023-09-30 value is returned |
| `RevenueWaterfall.FirstFoundIsFirstSuccess` | test_revenue.py:20-47 | the result is `(v, t)` exactly when `t` is the first tag in priority order whose attempt finds `v` and every earlier tag was skipped |
| `RevenueWaterfall.FirstFoundNone` | test_revenue.py:27-49 | there is no result exactly when every tag's attempt is skipped; no value is invented |
| `RevenueWaterfall.GetRevenueWaterfall` | test_revenue.py:11-49 | the loop with its early return and its `continue` on failure computes the first-success fallback over the four tags |
| `RevenueWaterfall.WaterfallReportsLatestAnnual` | test_revenue.py:20-45 | a reported figure is the `val` of the first latest 10-K entry of the named tag's USD series, and that tag is one of the four priority tags |
| `RevenueWaterfall.SecondTagAfterFailedFirst` | test_revenue.py:20-32 | when the first tag's request raises or returns a non-200 status and the second tag finds `v`, the result is `v` with tag `SalesRevenueNet` |
| `Text.Decimal` | test_revenue.py:63 | `str(n)` for `n >= 0` is a non-empty digit string that denotes `n`, with no leading zero except in "0" |
| `Text.IntToString` | test_revenue.py:63 | `str(n)` is a canonical digit string denoting `n` when `n >= 0`, and otherwise '-' followed by a digit string without a leading zero that denotes `-n` |
| `Text.DecimalUnique` | test_revenue.py:63 | every digit string without a superfluous leading zero is `str` of its own value, so `Decimal` is the only such rendering |
| `Text.ZFill` | test_revenue.py:63 | `zfill(w)` has length `max(w, len(s))`, keeps `s` (after any sign) at the end, puts only '0' between the sign and `s`, and returns a string already `w` or more characters long unchanged |
| `TickerResolver.CikStringOfNat` | test_revenue.py:63 | a CIK string has length `max(10, len(str(cik)))`, ends with the CIK's decimal digits, has only '0' before them, and reads back as the CIK |
| `Text.AsciiUpper` | test_revenue.py:52 | upper-casing keeps the length, maps each character on its own, and leaves no lower-case ASCII letter |
| `Text.AsciiUpperIdempotent` | test_revenue.py:52 | upper-casing an upper-cased ticker changes nothing |
| `TickerResolver.LookupCikFirstMatch` | test_revenue.py:60-64 | a CIK is found exactly when some record's ticker equals the upper-cased ticker, and it is the rendered CIK of the first such record in directory order |
| `TickerResolver.LookupCikIgnoresCase` | test_revenue.py:52 | looking up the upper-cased ticker gives the same answer as looking up the ticker as typed |
| `TickerResolver.FindCik` | test_revenue.py:60-64 | the scan that sets `cik` on the first match and breaks computes the first-match lookup |
| `PilotRun.RevenueLineOf` | test_revenue.py:84-92 | a figure is reported exactly when the waterfall found a non-zero value; it keeps the value and tag, and is shown in billions exactly when it is at least 1,000,000,000 |
| `PilotRun.RunPilot` | test_revenue.py:51-82 | the run halts with "CIK not found" exactly when no record carries the upper-cased ticker; otherwise it completes with the first match's CIK (at least ten characters) and the revenue line of the waterfall run for that CIK |

## Left out

- HTTP requests, URL construction and the identifying headers
  (test_revenue.py:5-9, 29-30, 56-57, 73-74) are network I/O. The facts
  endpoint is the parameter `fetch`, and the directory is the parameter
  `companies`.
- JSON decoding (`resp.json()`) belongs to a foreign library. Bodies arrive
  already decoded, and an undecodable facts body is `body == None`. Shapes
  the types exclude are not modelled. In the script they behave as follows:
  - A series entry that is not a dict raises at `entry.get`, and the tag
    is skipped.
  - A non-string `end` raises a TypeError when the sort compares two `end`
    values that Python cannot order, such as a string and a number, or two
    nulls. If every `end` is a number, the sort succeeds. A lone 10-K entry
    is never compared, so one whose `end` is null or a number is returned.
  - A `USD` value that is not a list raises, and the tag is skipped, unless
    the value is empty (`{}` or `""`). Then the 10-K subset is empty and
    line 42 falls through to the next tag.
- `ConceptFacts.Entry`: `val` is an integer. Fractional JSON numbers are
  not modelled. A `val` that is present but null is not modelled either. In
  the script (test_revenue.py:45) such a value is returned as `(None, tag)`,
  so no later tag is tried, and line 84 then reports no revenue.
- The directory and metadata fetches (test_revenue.py:57-58, 74) are not
  guarded in the source, so a failure there ends the run with an exception.
  `PilotRun.RunPilot` assumes both return. A directory record without a
  `ticker` key raises at line 62. A matching record without a `cik_str` key
  raises at line 63. The `Company` type excludes both.
- The metadata step (test_revenue.py:76-79) only feeds console output and
  is not part of this model.
- The two-decimal rendering of the revenue figure (test_revenue.py:87, 89)
  divides floating-point numbers. Only the choice between billions and
  millions is modelled.
- The `print` calls, the module-level call `run_pilot_test("AAPL")` and the
  unused `import time` are console output, an entry point and dead code.
- `Text.AsciiUpper`: models `str.upper` for ASCII only. Python's full
  Unicode case mapping (for example 'ß' becoming "SS") is not modelled,
  because ticker symbols are ASCII.
