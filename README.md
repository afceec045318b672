# Crypto screener chart and pagination core, in Dafny

This project models the parts of the crypto screener that hold state or rules.
The rest of the repository is rendering.

- **OHLC conversion** (`lib/utils.ts`, `convertOHLCData`). Each `[time, open, high, low, close]` tuple becomes a record. A record is dropped when its time equals the time of the tuple just before it in the input.
- **Millisecond-to-second conversion.** The chart applies `Math.floor(time / 1000)` before converting.
- **Page-number planner** (`buildPageNumbers`). It returns a list of page numbers and ellipsis markers.
- **`timeAgo` buckets.** The phrase depends only on the elapsed milliseconds.
- **Pagination control** (`components/Pagination.tsx`). It covers the last-page rule, the previous and next guards, and how links are rendered.
- **Listing decisions** (`components/Coins.tsx`). They cover the current page, `hasMorePages`, the estimated page count and the request.
- **Period tables** (`consts.ts`).
- **Candlestick chart component** (`components/CandleStickChart.tsx`). It is a class `Chart<P>` with these fields:
  - the selected period, the bound data and the pending flag;
  - the container and series references and the resize observer;
  - the chart surface: absent, live (width, height, time-of-day axis, series) or removed.

Its methods are the component's events: mount, period-button click, fetch success or failure, resize callback, unmount and a change of `height`. Each method states the whole new state. The class invariant `Valid()` says three things:
- a fetch is in flight exactly while a change is pending, and it is for the selected period;
- the container and series references and the observer are set exactly while the surface is live;
- a live surface shows the bound data converted to seconds and deduplicated.

Every event method requires `Valid()`, which the constructor establishes and every event method preserves. The other preconditions are all guaranteed by the component itself:
- `Mount` requires that no surface exists yet, because the effects first run after the first render.
- `SelectPeriod` requires a button value, because clicks only come from the period buttons.
- `FetchSucceeded` and `FetchFailed` require a pending change, because an outcome only arrives for a fetch that was issued.
- `ChangeHeight` requires a surface other than `Absent`, and `ChangeHeightIntended` requires an attached container, because a re-render with a new height can only follow the first mount.
- The internal steps `CreateSurface` and `BindData` require what `Valid()` gives at the point where the effects call them.

Prices are a type parameter, because only `time` is ever compared. Pages and timestamps are unbounded integers. Dafny's `/` with a positive divisor rounds down, as `Math.floor` does, negative operands included.

Points where the code does less than one might expect, as the model states it:
- **No stale-response discard.** There is no request sequence number. Overlapping period changes are prevented only because the period buttons are disabled while a change is pending. `SelectPeriod` ignores clicks while pending. Under that guard the data installed by a successful fetch is always for the selected period (`FetchSucceeded` ensures `dataPeriod == period`).
- **A failed fetch leaves the old data bound.** The new period still shows as selected, so data and period can disagree (`PeriodChangeScenario`).
- **No sorting.** The conversion does not sort its input.
- **Duplicates are judged against the input.** The filter compares each tuple with its input predecessor, not with the last record kept. `ConvertMatchesLastKept` proves the two policies give the same result.
- **The time-of-day axis setting is fixed when the surface is created.** A later period change does not update it: `SelectPeriod` leaves `surface` unchanged.

## Model

| member | source | states |
|---|---|---|
| `Consts.Find` | consts.ts:11-18 | the days of the first entry whose label matches, None exactly when no label matches |
| `Consts.LookupDays` | components/CandleStickChart.tsx:40-41 | the `days` parameter exists exactly when the period is a CHART_PERIODS label |
| `Consts.ButtonValuesInOrder` | consts.ts:2-9 | five buttons, values daily, weekly, monthly, quarterly, yearly in that order |
| `Consts.ButtonValuesDistinct` | consts.ts:2-9 | button values are pairwise distinct |
| `Consts.DaysTable` | consts.ts:11-18 | daily→1, weekly→7, monthly→30, quarterly→90, yearly→365, nothing for other strings |
| `Consts.EveryButtonHasDays` | consts.ts:2-18 | every button value has a day count, so the lookup behind a click never fails |
| `Consts.ChartPeriodsOrdered` | consts.ts:11-18 | labels unique, day counts strictly increasing in table order |
| `Utils.ConvertOhlcData` | lib/utils.ts:113-123 | output never longer than input; a non-empty input keeps its first tuple; no two adjacent outputs share a time |
| `Utils.KeptIndices` | lib/utils.ts:122 | the kept positions, increasing, each first or differing in time from its input predecessor |
| `Utils.KeptIndicesComplete` | lib/utils.ts:122 | every position that is first or differs from its input predecessor is kept: only repeats of the predecessor's time are dropped |
| `Utils.ConvertIsFilter` | lib/utils.ts:113-123 | output record j copies the fields of the j-th kept input tuple (order preserved) |
| `Utils.ConvertKeepsDistinctNeighbours` | lib/utils.ts:122 | an input whose adjacent times differ passes through whole |
| `Utils.ConvertIdempotent` | lib/utils.ts:113-123 | converting the output again changes nothing |
| `Utils.ConvertMatchesLastKept` | lib/utils.ts:122 | comparing with the input predecessor equals comparing with the last kept record |
| `Utils.SeparatedDuplicatesSurvive` | lib/utils.ts:122 | equal times separated by another time both survive |
| `Utils.ToSeconds` | components/CandleStickChart.tsx:163 | `floor(ms/1000)`: s·1000 ≤ ms < s·1000 + 1000 |
| `Utils.TuplesToSeconds` | components/CandleStickChart.tsx:161-164 | every tuple keeps its prices and gets its time in seconds |
| `Utils.SameSecondCollapses` | components/CandleStickChart.tsx:161-165 | 1000 ms and 1999 ms fall in the same second, so the second tuple is dropped |
| `Utils.WindowStart` | lib/utils.ts:139 | `Math.max(2, cp - 1)`: at least 2 and at least cp - 1, and equal to one of them |
| `Utils.WindowEnd` | lib/utils.ts:140 | `Math.min(tp - 1, cp + 1)`: at most tp - 1 and at most cp + 1, and equal to one of them |
| `Utils.PagePlan` | lib/utils.ts:126-156 | at most seven entries; empty exactly when totalPages < 1 |
| `Utils.PageRun` | lib/utils.ts:134 | pages lo..hi in order, empty when hi < lo |
| `Utils.PushRun` | lib/utils.ts:146-148 | the counting loop appends exactly pages lo..hi |
| `Utils.BuildPageNumbers` | lib/utils.ts:126-156 | the pushed list equals the plan: all pages up to five, else 1, optional ellipsis, window, optional ellipsis, last |
| `Utils.ShortPlanIsEveryPage` | lib/utils.ts:133-135 | with at most five pages: exactly 1..totalPages, no ellipsis, for any current page |
| `Utils.LongPlanShape` | lib/utils.ts:138-153 | with more than five pages: starts with 1, ends with totalPages, 3 to 7 entries |
| `Utils.LongPlanAt` | lib/utils.ts:138-153 | each position of a long plan: 1, leading ellipsis iff start > 2, the window, trailing ellipsis iff end < totalPages - 1, last |
| `Utils.PlanNumbersIncrease` | lib/utils.ts:126-156 | numbers strictly increase and lie in [1, totalPages] |
| `Utils.PlanNeighbours` | lib/utils.ts:139-151 | adjacent numbers are consecutive pages; an ellipsis sits between two numbers and hides at least one page, so ellipses are never adjacent |
| `Utils.PlanWindow` | lib/utils.ts:139-151 | for 1 ≤ cp ≤ tp: leading ellipsis iff max(2, cp-1) > 2, trailing iff min(tp-1, cp+1) < tp-1; cp and its in-range neighbours listed |
| `Utils.PlanExamples` | lib/utils.ts:126-156 | (50, 200), (2, 200) and (1, 3) give the expected lists |
| `Utils.ElapsedBucket` | lib/utils.ts:97-107 | the bucket is fixed by the elapsed time alone: under 1 min just now, then minutes, hours, days, weeks under 4 weeks, else the date; count c means c ≤ elapsed/unit < c + 1 |
| `Utils.Decimal` | lib/utils.ts:104-107 | the `${n}` of a template literal: a non-empty run of decimal digits |
| `Utils.DecimalRoundTrip` | lib/utils.ts:104-107 | reading the printed digits back gives the number printed |
| `Utils.Counted` | lib/utils.ts:105-107 | the leading digits read back as the count; a singular word ends in `s` exactly when the count exceeds one |
| `Utils.Phrase` | lib/utils.ts:103-107 | "just now" for the first bucket, no phrase exactly for the date fallback; a counted bucket reads as its count in decimal, a space and min/hour/day/week, with `s` for hours, days and weeks above one |
| `Utils.PluralOnlyAboveOne` | lib/utils.ts:105-107 | hours, days and weeks end in `s` iff the count exceeds one; minutes never |
| `Utils.TimeAgo` | lib/utils.ts:97-107 | 'just now' iff under 60 s; no phrase (date fallback) iff at least four weeks; otherwise the phrase is floor(elapsed / unit) in decimal plus the unit word, and its leading digits read back as that number |
| `Utils.TimeAgoExamples` | lib/utils.ts:103-107 | 90 s → "1 min", 1 h → "1 hour", 2 days → "2 days", 3 weeks → "3 weeks" |
| `Pagination.IsLastPage` | components/Pagination.tsx:32 | last when no more pages are known, or when the current page equals the total; otherwise not last, even beyond the total |
| `Pagination.PreviousControl` | components/Pagination.tsx:39-42 | navigates to cp - 1 only when cp > 1; styled disabled iff cp == 1 |
| `Pagination.NextControl` | components/Pagination.tsx:63-64 | navigates to cp + 1 only when not the last page; styled disabled iff last page |
| `Pagination.RenderEntry` | components/Pagination.tsx:50-56 | ellipsis for ellipsis, otherwise a link to that page, active iff it is the current page |
| `Pagination.Items` | components/Pagination.tsx:46-59 | one rendered item per planned entry, in plan order |
| `Pagination.ClickTarget` | components/Pagination.tsx:50-54 | an ellipsis has no click target; a link navigates to exactly its page |
| `Pagination.Render` | components/Pagination.tsx:34-68 | previous navigates iff cp > 1, next iff not the last page, and the items follow the plan entry by entry, ellipsis for ellipsis |
| `Pagination.NextInertOnLastPage` | components/Pagination.tsx:32-64 | without more pages, or on page == totalPages, next is inert and styled disabled |
| `Pagination.PreviousStyleMatchesGuard` | components/Pagination.tsx:39-42 | for cp ≥ 1 the disabled style agrees with the guard; below 1 previous is inert but not styled disabled |
| `Pagination.LinksWellFormed` | components/Pagination.tsx:46-56 | links target pages in [1, totalPages]; at most one is active; for 1 ≤ cp ≤ tp the current page's link is active |
| `Coins.CurrentPage` | components/Coins.tsx:86 | the given page, or 1 when absent or zero |
| `Coins.CeilDiv` | components/Coins.tsx:106 | `Math.ceil(a/b)`: the least q with q·b ≥ a |
| `Coins.HasMorePages` | components/Coins.tsx:104 | more pages exactly when exactly 20 coins came back; fewer, or more, means none |
| `Coins.EstimatedTotalPages` | components/Coins.tsx:105-106 | a multiple of 100, 100 up to page 100, at least cp + 100 beyond; never below cp, equal only at cp = 100 |
| `Coins.ListingQuery` | components/Coins.tsx:90-96 | per_page = 20, page = current page, usd, market-cap order, no sparkline |
| `Coins.PaginationProps` | components/Coins.tsx:99-120 | no control after a failed fetch; otherwise the current page, the estimate, and hasMorePages iff exactly 20 coins came back |
| `Coins.NextDisabledOnlyOnPage100` | components/Coins.tsx:104-106 | with a full page, next is disabled exactly on page 100 |
| `Coins.ShortPageIsLast` | components/Coins.tsx:104 | with fewer than 20 coins, next is inert |
| `Coins.EstimateExamples` | components/Coins.tsx:105-106 | page 1 (or none) gives 100, page 150 gives 300 |
| `CandleStickChart.DisplayedSeries` | components/CandleStickChart.tsx:159-166 | the series shows the data in seconds, deduplicated: no longer than the data, no adjacent equal times, first tuple kept |
| `CandleStickChart.ShowsTime` | components/CandleStickChart.tsx:119 | the time of day is shown exactly for the periods spanning at most 30 days (daily, weekly, monthly) |
| `CandleStickChart.RequestFor` | components/CandleStickChart.tsx:39-48 | endpoint `/coins/<id>/ohlc`, usd, full precision, days = the CHART_PERIODS value whose label is the period |
| `CandleStickChart.Buttons` | components/CandleStickChart.tsx:176-186 | buttons in table order; active iff value == period; disabled iff pending |
| `CandleStickChart.ExactlyOneActiveButton` | components/CandleStickChart.tsx:179-181 | for a selected button value exactly one button is active |
| `CandleStickChart.Chart.constructor` | components/CandleStickChart.tsx:24-37 | coin 'bitcoin' and height 400 when not passed, period daily, data = `data ?? []`, nothing pending, no surface |
| `CandleStickChart.Chart.CreateSurface` | components/CandleStickChart.tsx:117-149 | no container: nothing; otherwise a surface at the container width, time axis iff daily/weekly/monthly, millisecond data bound, observer on |
| `CandleStickChart.Chart.Cleanup` | components/CandleStickChart.tsx:151-156 | surface removed, observer off, container and series references nulled |
| `CandleStickChart.Chart.BindData` | components/CandleStickChart.tsx:159-167 | while the series reference is set, the series becomes the data in seconds, deduplicated; otherwise nothing changes |
| `CandleStickChart.Chart.Mount` | components/CandleStickChart.tsx:117-167 | both effects run: the surface ends up live, showing the data in seconds |
| `CandleStickChart.Chart.SelectPeriod` | components/CandleStickChart.tsx:55-64 | pending or same period: no change, no fetch; otherwise period written, pending set, request for the new period issued (days always found) |
| `CandleStickChart.Chart.FetchSucceeded` | components/CandleStickChart.tsx:44-49 | data := response or [] when nullish, pending over, series rebound, data is the selected period's |
| `CandleStickChart.Chart.FetchFailed` | components/CandleStickChart.tsx:50-52 | pending over; data and surface unchanged |
| `CandleStickChart.Chart.Resize` | components/CandleStickChart.tsx:140-145 | no entries or no observer: nothing; otherwise only the width changes, to the first entry's |
| `CandleStickChart.Chart.Unmount` | components/CandleStickChart.tsx:151-156 | surface removed and series reference null, so later binds do nothing |
| `CandleStickChart.Chart.ChangeHeight` | components/CandleStickChart.tsx:117-157 | a different height leaves a mounted chart without a surface (see Findings) |
| `CandleStickChart.Chart.ChangeHeightIntended` | components/CandleStickChart.tsx:117-157 | a different height recreates the surface at that height, with the current period's axis setting and the data in seconds |
| `CandleStickChart.HeightChangeLosesSurface` | components/CandleStickChart.tsx:151-157 | mount, then change the height: the surface is removed |
| `CandleStickChart.PeriodChangeScenario` | components/CandleStickChart.tsx:55-64 | a click while pending is ignored, the weekly response is bound, a failed monthly change keeps the weekly data |

## Left out

- The market-data fetch (`lib/coingecko.actions.ts`): HTTP, environment variables and URL building. It is an abstract outcome: a response, or a failure.
- The failure log (`console.error`) and the other `console.log` calls: output only.
- Number formatting (`formatCurrency`, `formatCryptoPrice`, `formatCompactNumber`, `formatPercentage`) and `cn`: these use `Intl.NumberFormat`, floating point and CSS class merging.
- In `timeAgo`: the clock, the parsing of the date argument and the ISO-date fallback. The elapsed milliseconds are a parameter, and the fallback is the `CalendarDate` bucket with no phrase.
- The lightweight-charts calls (`createChart`, `addSeries`, `applyOptions`, `fitContent`) and the styling in `getChartConfig`. The surface is a value holding width, height, the time-of-day setting and the series data.
- React scheduling: effect timing, transition commit timing and `ResizeObserver` delivery. These are discrete, sequential method calls. React ignores a state update on an unmounted component; here such an update changes `ohlcData` but binds nothing, which shows the same thing.
- Object refs are attached by React only when their element mounts. `Mount` attaches the container; nothing else does.
- A `ResizeObserver` width is always a number, so the `?? 0` fallback in the resize callback is not modelled.
- String coercion of the `page` query value (`Number(...)`, `||` on strings, NaN): pages are integers.
- Prices: a type parameter. They are never compared, validated or sorted.
- The rendering-only components: DataTable, TrendingCoins, Categories, CoinOverview (except that its initial request is for one day), Header, CoinOverviewSkeleton and the two app pages.
- A stale-response discard by sequence number: the code has none.
- `CandleStickChart.DisplayedSeries`: states length, distinct neighbours and the first record, not the full filter characterisation. That characterisation is proved of `Utils.ConvertOhlcData` by `Utils.ConvertIsFilter`.

## Findings

| source | as written | input that shows it | evidently intended | confidence | as-written member | corrected member |
|---|---|---|---|---|---|---|
| components/CandleStickChart.tsx:151-157 | The cleanup nulls `chartContainerRef.current`. React re-attaches an object ref only when its element mounts, so the re-run effect finds no container and returns: after any change of `height` the component has no chart. If the container were kept, the series would hold millisecond timestamps, because only line 137 binds and the data effect does not re-run. | mount with height 400, then re-render with height 500; latent in this repository, since the only caller (components/CoinOverview.tsx:35) never passes `height`, so it stays 400 and the effect never re-runs | recreate the chart at the new height, showing the data in seconds | medium, not executed (depends on React's ref attachment) | `CandleStickChart.Chart.ChangeHeight`, `CandleStickChart.HeightChangeLosesSurface` | `CandleStickChart.Chart.ChangeHeightIntended` |
