/** The pure helpers of lib/utils.ts that the chart and the pagination control
    rely on: OHLC conversion with adjacent-duplicate suppression, the
    millisecond-to-second conversion the chart applies before it, the
    page-number planner, and the duration buckets of `timeAgo`. */
module Utils {
  import opened Wrappers

  // ---------------------------------------------------------------------------
  // OHLC samples
  // ---------------------------------------------------------------------------

  /** The tuple `[time, open, high, low, close]` as the market-data API sends it.
      Prices are opaque (`P`): only `time` is ever compared. */
  datatype Ohlc<P> = Ohlc(time: int, open: P, high: P, low: P, close: P)

  /** The record handed to the candlestick series. */
  datatype CandlePoint<P> = CandlePoint(time: int, open: P, high: P, low: P, close: P)

  /** The `map` step of `convertOHLCData`: one record per tuple, fields copied. */
  function ToPoint<P>(d: Ohlc<P>): CandlePoint<P>
  {
    CandlePoint(d.time, d.open, d.high, d.low, d.close)
  }

  /** Reading a record back as a tuple (the inverse of ToPoint). */
  function ToTuple<P>(p: CandlePoint<P>): (d: Ohlc<P>)
    ensures ToPoint(d) == p
  {
    Ohlc(p.time, p.open, p.high, p.low, p.close)
  }

  function ToTuples<P>(ps: seq<CandlePoint<P>>): (ds: seq<Ohlc<P>>)
    ensures |ds| == |ps|
    ensures forall i :: 0 <= i < |ps| ==> ToPoint(ds[i]) == ps[i]
  {
    seq(|ps|, i requires 0 <= i < |ps| => ToTuple(ps[i]))
  }

  /** The `filter` predicate of `convertOHLCData`: index `i` survives when it is
      the first one or its time differs from that of its immediate predecessor
      in the INPUT (the mapped array), not in the output. */
  predicate KeptAt<P>(data: seq<Ohlc<P>>, i: int)
    requires 0 <= i < |data|
  {
    i == 0 || data[i].time != data[i - 1].time
  }

  /** `convertOHLCData`: map every tuple to a record and drop each one whose
      time repeats the time of the tuple just before it. */
  function ConvertOhlcData<P>(data: seq<Ohlc<P>>): (r: seq<CandlePoint<P>>)
    ensures |r| <= |data|
    ensures |data| > 0 ==> |r| > 0 && r[0] == ToPoint(data[0]) && r[|r| - 1].time == data[|data| - 1].time
    ensures forall j :: 0 < j < |r| ==> r[j - 1].time != r[j].time
  {
    if |data| == 0 then []
    else
      var n := |data| - 1;
      var prefix := ConvertOhlcData(data[..n]);
      assert n > 0 ==> data[..n][n - 1] == data[n - 1] && data[..n][0] == data[0];
      if KeptAt(data, n) then prefix + [ToPoint(data[n])] else prefix
  }

  /** The input positions that `convertOHLCData` keeps, in increasing order. */
  function KeptIndices<P>(data: seq<Ohlc<P>>): (k: seq<nat>)
    ensures forall j :: 0 <= j < |k| ==> k[j] < |data| && KeptAt(data, k[j])
    ensures forall j1, j2 :: 0 <= j1 < j2 < |k| ==> k[j1] < k[j2]
  {
    if |data| == 0 then []
    else
      var n := |data| - 1;
      var prefix := KeptIndices(data[..n]);
      assert forall i :: 0 <= i < n ==> (KeptAt(data[..n], i) <==> KeptAt(data, i));
      if KeptAt(data, n) then prefix + [n] else prefix
  }

  /** Every position that passes the filter predicate is among the kept ones:
      a tuple is dropped only when its time repeats its input predecessor's. */
  lemma {:induction false} KeptIndicesComplete<P>(data: seq<Ohlc<P>>)
    ensures forall i :: 0 <= i < |data| && KeptAt(data, i) ==> i in KeptIndices(data)
  {
    if |data| > 0 {
      var n := |data| - 1;
      KeptIndicesComplete(data[..n]);
      assert forall i :: 0 <= i < n ==> (KeptAt(data[..n], i) <==> KeptAt(data, i));
    }
  }

  /** The conversion is exactly a filter: output record `j` is the record of the
      `j`-th kept input position, so every record copies the fields of one input
      tuple and input order is preserved. */
  lemma {:induction false} ConvertIsFilter<P>(data: seq<Ohlc<P>>)
    ensures |ConvertOhlcData(data)| == |KeptIndices(data)|
    ensures forall j :: 0 <= j < |KeptIndices(data)| ==>
      ConvertOhlcData(data)[j] == ToPoint(data[KeptIndices(data)[j]])
  {
    if |data| > 0 {
      var n := |data| - 1;
      var prefix := data[..n];
      ConvertIsFilter(prefix);
      var r, k := ConvertOhlcData(data), KeptIndices(data);
      var r', k' := ConvertOhlcData(prefix), KeptIndices(prefix);
      assert KeptAt(data, n) ==> r == r' + [ToPoint(data[n])] && k == k' + [n];
      assert !KeptAt(data, n) ==> r == r' && k == k';
      forall j | 0 <= j < |k| ensures r[j] == ToPoint(data[k[j]]) {
        if j < |k'| {
          assert k[j] == k'[j] && r[j] == r'[j];
          assert prefix[k'[j]] == data[k'[j]];
        }
      }
    }
  }

  /** A sequence whose adjacent times already differ passes through unchanged
      (apart from the tuple-to-record map). */
  lemma {:induction false} ConvertKeepsDistinctNeighbours<P>(data: seq<Ohlc<P>>)
    requires forall j :: 0 < j < |data| ==> data[j - 1].time != data[j].time
    ensures |ConvertOhlcData(data)| == |data|
    ensures forall j :: 0 <= j < |data| ==> ConvertOhlcData(data)[j] == ToPoint(data[j])
  {
    if |data| > 0 {
      var n := |data| - 1;
      assert forall j :: 0 <= j < n ==> data[..n][j] == data[j];
      ConvertKeepsDistinctNeighbours(data[..n]);
    }
  }

  /** Converting the output again (read back as tuples) changes nothing. */
  lemma ConvertIdempotent<P>(data: seq<Ohlc<P>>)
    ensures ConvertOhlcData(ToTuples(ConvertOhlcData(data))) == ConvertOhlcData(data)
  {
    var r := ConvertOhlcData(data);
    var back := ToTuples(r);
    assert forall j :: 0 <= j < |back| ==> back[j].time == r[j].time;
    ConvertKeepsDistinctNeighbours(back);
  }

  /** A reference formulation: keep a tuple unless its time equals the time of
      the last record KEPT so far. */
  function DedupAgainstLastKept<P>(data: seq<Ohlc<P>>): seq<CandlePoint<P>>
  {
    if |data| == 0 then []
    else
      var n := |data| - 1;
      var prefix := DedupAgainstLastKept(data[..n]);
      if |prefix| > 0 && prefix[|prefix| - 1].time == data[n].time then prefix
      else prefix + [ToPoint(data[n])]
  }

  /** Comparing with the input predecessor, as the source does, drops exactly
      what comparing with the last kept record would: a run of equal times
      always collapses to its first element. */
  lemma {:induction false} ConvertMatchesLastKept<P>(data: seq<Ohlc<P>>)
    ensures ConvertOhlcData(data) == DedupAgainstLastKept(data)
  {
    if |data| > 0 {
      var n := |data| - 1;
      ConvertMatchesLastKept(data[..n]);
      assert n > 0 ==> data[..n][n - 1] == data[n - 1];
    }
  }

  /** Equal times that are not adjacent in the input both survive. */
  lemma SeparatedDuplicatesSurvive(a: Ohlc<int>, b: Ohlc<int>, c: Ohlc<int>)
    requires a.time == c.time && b.time != a.time
    ensures ConvertOhlcData([a, b, c]) == [ToPoint(a), ToPoint(b), ToPoint(c)]
  {
    assert [a, b, c][..2] == [a, b];
    assert [a, b][..1] == [a];
    assert [a][..0] == [];
  }

  // ---------------------------------------------------------------------------
  // Millisecond timestamps
  // ---------------------------------------------------------------------------

  /** `Math.floor(ms / 1000)`. Dafny's `/` with a positive divisor rounds toward
      negative infinity, as `Math.floor` does, negative timestamps included. */
  function ToSeconds(ms: int): (s: int)
    ensures s * 1000 <= ms < s * 1000 + 1000
  {
    ms / 1000
  }

  /** The chart's re-mapping of every tuple to second granularity (prices untouched). */
  function TuplesToSeconds<P>(data: seq<Ohlc<P>>): (r: seq<Ohlc<P>>)
    ensures |r| == |data|
    ensures forall i :: 0 <= i < |data| ==> r[i] == data[i].(time := ToSeconds(data[i].time))
  {
    seq(|data|, i requires 0 <= i < |data| => data[i].(time := ToSeconds(data[i].time)))
  }

  /** Tuples from the same second collapse once converted: 1000 ms and 1999 ms
      are both second 1, so the second tuple is dropped. */
  lemma SameSecondCollapses()
    ensures ConvertOhlcData(TuplesToSeconds([Ohlc(1000, 10.0, 11.0, 9.0, 10.5),
                                             Ohlc(1999, 10.0, 11.0, 9.0, 10.5),
                                             Ohlc(5000, 12.0, 13.0, 11.0, 12.5)]))
         == [CandlePoint(1, 10.0, 11.0, 9.0, 10.5), CandlePoint(5, 12.0, 13.0, 11.0, 12.5)]
  {
    var s := TuplesToSeconds([Ohlc(1000, 10.0, 11.0, 9.0, 10.5),
                              Ohlc(1999, 10.0, 11.0, 9.0, 10.5),
                              Ohlc(5000, 12.0, 13.0, 11.0, 12.5)]);
    assert s == [Ohlc(1, 10.0, 11.0, 9.0, 10.5), Ohlc(1, 10.0, 11.0, 9.0, 10.5), Ohlc(5, 12.0, 13.0, 11.0, 12.5)];
    assert s[..2] == [s[0], s[1]];
    assert s[..2][..1] == [s[0]];
    assert s[..2][..1][..0] == [];
  }

  // ---------------------------------------------------------------------------
  // Page-number planner
  // ---------------------------------------------------------------------------

  /** An entry of the page list: a page number or the ELLIPSIS marker. */
  datatype PageEntry = Page(n: int) | Ellipsis

  const MAX_VISIBLE_PAGES: int := 5

  /** Page(lo), Page(lo + 1), ..., Page(hi); empty when hi < lo. */
  function PageRun(lo: int, hi: int): (r: seq<PageEntry>)
    decreases hi - lo
    ensures |r| == if hi < lo then 0 else hi - lo + 1
    ensures forall k :: 0 <= k < |r| ==> r[k] == Page(lo + k)
  {
    if hi < lo then [] else [Page(lo)] + PageRun(lo + 1, hi)
  }

  /** Extending a run by the next page. */
  lemma PageRunSnoc(lo: int, hi: int)
    requires lo <= hi + 1
    ensures PageRun(lo, hi) + [Page(hi + 1)] == PageRun(lo, hi + 1)
  {
    var a, b := PageRun(lo, hi) + [Page(hi + 1)], PageRun(lo, hi + 1);
    assert |a| == |b|;
    forall k | 0 <= k < |a| ensures a[k] == b[k] {
    }
  }

  /** `Math.max(2, currentPage - 1)`: first page of the window around the current page. */
  function WindowStart(currentPage: int): (start: int)
    ensures start >= 2 && start >= currentPage - 1
    ensures start == 2 || start == currentPage - 1
  {
    if currentPage - 1 > 2 then currentPage - 1 else 2
  }

  /** `Math.min(totalPages - 1, currentPage + 1)`: last page of that window. */
  function WindowEnd(currentPage: int, totalPages: int): (end: int)
    ensures end <= totalPages - 1 && end <= currentPage + 1
    ensures end == totalPages - 1 || end == currentPage + 1
  {
    if currentPage + 1 < totalPages - 1 then currentPage + 1 else totalPages - 1
  }

  /** The list `buildPageNumbers` produces, stated as a value: every page when
      there are at most five, otherwise page 1, an optional ellipsis, the
      window, an optional ellipsis and the last page. */
  function PagePlan(currentPage: int, totalPages: int): (plan: seq<PageEntry>)
    ensures |plan| <= 7
    ensures totalPages < 1 <==> plan == []
  {
    if totalPages <= MAX_VISIBLE_PAGES then PageRun(1, totalPages)
    else
      var start := WindowStart(currentPage);
      var end := WindowEnd(currentPage, totalPages);
      [Page(1)]
      + (if start > 2 then [Ellipsis] else [])
      + PageRun(start, end)
      + (if end < totalPages - 1 then [Ellipsis] else [])
      + [Page(totalPages)]
  }

  /** Pushes Page(lo), ..., Page(hi) onto `pages`, one per iteration. */
  method PushRun(pages: seq<PageEntry>, lo: int, hi: int) returns (out: seq<PageEntry>)
    ensures out == pages + PageRun(lo, hi)
  {
    out := pages;
    var index := lo;
    while index <= hi
      invariant lo <= index <= if hi < lo then lo else hi + 1
      invariant out == pages + PageRun(lo, index - 1)
    {
      PageRunSnoc(lo, index - 1);
      assert pages + PageRun(lo, index - 1) + [Page(index)] == pages + PageRun(lo, index);
      out := out + [Page(index)];
      index := index + 1;
    }
  }

  /** `buildPageNumbers`: pushes the entries one by one into `pages`; the
      pages of a short listing and the window of a long one through loops. */
  method BuildPageNumbers(currentPage: int, totalPages: int) returns (pages: seq<PageEntry>)
    ensures pages == PagePlan(currentPage, totalPages)
  {
    pages := [];
    if totalPages <= MAX_VISIBLE_PAGES {
      pages := PushRun(pages, 1, totalPages);
      return;
    }
    pages := pages + [Page(1)];
    var start := WindowStart(currentPage);
    var end := WindowEnd(currentPage, totalPages);
    if start > 2 {
      pages := pages + [Ellipsis];
    }
    pages := PushRun(pages, start, end);
    if end < totalPages - 1 {
      pages := pages + [Ellipsis];
    }
    pages := pages + [Page(totalPages)];
  }

  /** With at most five pages the plan is exactly 1..totalPages, without any
      ellipsis, whatever the current page. */
  lemma ShortPlanIsEveryPage(currentPage: int, totalPages: int)
    requires totalPages <= MAX_VISIBLE_PAGES
    ensures |PagePlan(currentPage, totalPages)| == if totalPages < 0 then 0 else totalPages
    ensures forall k :: 0 <= k < |PagePlan(currentPage, totalPages)| ==> PagePlan(currentPage, totalPages)[k] == Page(k + 1)
    ensures Ellipsis !in PagePlan(currentPage, totalPages)
  {
  }

  /** With more than five pages the plan starts at page 1, ends at the last
      page and has between three and seven entries. */
  lemma LongPlanShape(currentPage: int, totalPages: int)
    requires totalPages > MAX_VISIBLE_PAGES
    ensures var plan := PagePlan(currentPage, totalPages);
      3 <= |plan| <= 7 && plan[0] == Page(1) && plan[|plan| - 1] == Page(totalPages)
  {
  }

  /** Entry `i` of a long plan, by position: page 1, the leading ellipsis if
      any, the window, the trailing ellipsis if any, the last page. */
  lemma LongPlanAt(currentPage: int, totalPages: int, i: int)
    requires totalPages > MAX_VISIBLE_PAGES
    requires 0 <= i < |PagePlan(currentPage, totalPages)|
    ensures var plan, start, end := PagePlan(currentPage, totalPages), WindowStart(currentPage), WindowEnd(currentPage, totalPages);
      var lead := if start > 2 then 1 else 0;
      var run := if end < start then 0 else end - start + 1;
      var trail := if end < totalPages - 1 then 1 else 0;
      |plan| == 2 + lead + run + trail &&
      plan[i] == if i == 0 then Page(1)
                 else if i <= lead then Ellipsis
                 else if i <= lead + run then Page(start + i - 1 - lead)
                 else if i < |plan| - 1 then Ellipsis
                 else Page(totalPages)
  {
  }

  /** The numbers of any plan strictly increase and lie in [1, totalPages]. */
  lemma PlanNumbersIncrease(currentPage: int, totalPages: int)
    ensures var plan := PagePlan(currentPage, totalPages);
      forall i :: 0 <= i < |plan| && plan[i].Page? ==> 1 <= plan[i].n <= totalPages
    ensures var plan := PagePlan(currentPage, totalPages);
      forall i, j :: 0 <= i < j < |plan| && plan[i].Page? && plan[j].Page? ==> plan[i].n < plan[j].n
  {
    var plan := PagePlan(currentPage, totalPages);
    if totalPages > MAX_VISIBLE_PAGES {
      forall i | 0 <= i < |plan| && plan[i].Page? ensures 1 <= plan[i].n <= totalPages {
        LongPlanAt(currentPage, totalPages, i);
      }
      forall i, j | 0 <= i < j < |plan| && plan[i].Page? && plan[j].Page? ensures plan[i].n < plan[j].n {
        LongPlanAt(currentPage, totalPages, i);
        LongPlanAt(currentPage, totalPages, j);
      }
    }
  }

  /** What the markers mean: two adjacent numbers are consecutive pages, and an
      ellipsis stands between two numbers with at least one page omitted
      between them; hence two ellipses are never adjacent and every page from
      1 to totalPages is either listed or hidden behind an ellipsis. */
  lemma PlanNeighbours(currentPage: int, totalPages: int)
    requires totalPages > MAX_VISIBLE_PAGES
    ensures var plan := PagePlan(currentPage, totalPages);
      forall i :: 0 <= i < |plan| - 1 && plan[i].Page? && plan[i + 1].Page? ==> plan[i + 1].n == plan[i].n + 1
    ensures var plan := PagePlan(currentPage, totalPages);
      forall i :: 0 <= i < |plan| && plan[i].Ellipsis? ==>
        0 < i < |plan| - 1 && plan[i - 1].Page? && plan[i + 1].Page? && plan[i + 1].n > plan[i - 1].n + 1
  {
    var plan := PagePlan(currentPage, totalPages);
    forall i | 0 <= i < |plan| - 1 && plan[i].Page? && plan[i + 1].Page? ensures plan[i + 1].n == plan[i].n + 1 {
      LongPlanAt(currentPage, totalPages, i);
      LongPlanAt(currentPage, totalPages, i + 1);
    }
    forall i | 0 <= i < |plan| && plan[i].Ellipsis?
      ensures 0 < i < |plan| - 1 && plan[i - 1].Page? && plan[i + 1].Page? && plan[i + 1].n > plan[i - 1].n + 1
    {
      LongPlanAt(currentPage, totalPages, i);
      LongPlanAt(currentPage, totalPages, i - 1);
      LongPlanAt(currentPage, totalPages, i + 1);
    }
  }

  /** For a current page within the listing, the leading ellipsis is there iff
      the window starts after page 2, the trailing one iff the window ends
      before the second-to-last page, and the current page and its in-range
      neighbours are listed. */
  lemma PlanWindow(currentPage: int, totalPages: int)
    requires totalPages > MAX_VISIBLE_PAGES
    requires 1 <= currentPage <= totalPages
    ensures var plan := PagePlan(currentPage, totalPages);
      (plan[1] == Ellipsis <==> WindowStart(currentPage) > 2) &&
      (plan[|plan| - 2] == Ellipsis <==> WindowEnd(currentPage, totalPages) < totalPages - 1)
    ensures var plan := PagePlan(currentPage, totalPages);
      Page(currentPage) in plan &&
      (currentPage > 1 ==> Page(currentPage - 1) in plan) &&
      (currentPage < totalPages ==> Page(currentPage + 1) in plan)
  {
    var plan := PagePlan(currentPage, totalPages);
    var start, end := WindowStart(currentPage), WindowEnd(currentPage, totalPages);
    LongPlanAt(currentPage, totalPages, 1);
    LongPlanAt(currentPage, totalPages, |plan| - 2);
    var lead := if start > 2 then 1 else 0;
    LongPlanAt(currentPage, totalPages, currentPage - start + 1 + lead);
    if currentPage == 1 {
    } else if currentPage == totalPages {
      LongPlanAt(currentPage, totalPages, |plan| - 1);
      LongPlanAt(currentPage, totalPages, currentPage - 1 - start + 1 + lead);
    } else {
      LongPlanAt(currentPage, totalPages, currentPage - 1 - start + 1 + lead);
      LongPlanAt(currentPage, totalPages, currentPage + 1 - start + 1 + lead);
    }
    if currentPage <= 2 {
      LongPlanAt(currentPage, totalPages, 0);
    }
    if currentPage >= totalPages - 1 {
      LongPlanAt(currentPage, totalPages, |plan| - 1);
    }
  }

  /** Worked examples: (50, 200), (2, 200) and (1, 3). */
  lemma PlanExamples()
    ensures PagePlan(50, 200) == [Page(1), Ellipsis, Page(49), Page(50), Page(51), Ellipsis, Page(200)]
    ensures PagePlan(2, 200) == [Page(1), Page(2), Page(3), Ellipsis, Page(200)]
    ensures PagePlan(1, 3) == [Page(1), Page(2), Page(3)]
  {
    assert PageRun(49, 51) == [Page(49), Page(50), Page(51)];
    assert PageRun(2, 3) == [Page(2), Page(3)];
    assert PageRun(1, 3) == [Page(1), Page(2), Page(3)];
  }

  // ---------------------------------------------------------------------------
  // timeAgo duration buckets
  // ---------------------------------------------------------------------------

  /** Which phrase `timeAgo` chooses for an elapsed time. `CalendarDate` is the
      fallback to the past date itself. */
  datatype Elapsed = JustNow | Minutes(count: int) | Hours(count: int) | Days(count: int) | Weeks(count: int) | CalendarDate

  const MS_PER_MINUTE: int := 60 * 1000
  const MS_PER_HOUR: int := 60 * MS_PER_MINUTE
  const MS_PER_DAY: int := 24 * MS_PER_HOUR
  const MS_PER_WEEK: int := 7 * MS_PER_DAY

  /** The length of one unit of a counted bucket, in milliseconds. */
  function UnitMs(e: Elapsed): int
    requires e.Minutes? || e.Hours? || e.Days? || e.Weeks?
  {
    match e
    case Minutes(_) => MS_PER_MINUTE
    case Hours(_) => MS_PER_HOUR
    case Days(_) => MS_PER_DAY
    case Weeks(_) => MS_PER_WEEK
  }

  /** The bucketing of `timeAgo` for `diffMs` elapsed milliseconds: successive
      `Math.floor` divisions into seconds, minutes, hours, days and weeks, then
      the first unit whose count is below its limit. The result says the
      elapsed time lies in [count, count + 1) units, and names the bucket from
      the elapsed time alone. */
  function ElapsedBucket(diffMs: int): (e: Elapsed)
    ensures e == JustNow <==> diffMs < MS_PER_MINUTE
    ensures e.Minutes? <==> MS_PER_MINUTE <= diffMs < MS_PER_HOUR
    ensures e.Hours? <==> MS_PER_HOUR <= diffMs < MS_PER_DAY
    ensures e.Days? <==> MS_PER_DAY <= diffMs < MS_PER_WEEK
    ensures e.Weeks? <==> MS_PER_WEEK <= diffMs < 4 * MS_PER_WEEK
    ensures e == CalendarDate <==> diffMs >= 4 * MS_PER_WEEK
    ensures e.Minutes? || e.Hours? || e.Days? || e.Weeks? ==>
      1 <= e.count && e.count * UnitMs(e) <= diffMs < (e.count + 1) * UnitMs(e)
  {
    var seconds := diffMs / 1000;
    var minutes := seconds / 60;
    var hours := minutes / 60;
    var days := hours / 24;
    var weeks := days / 7;
    if seconds < 60 then JustNow
    else if minutes < 60 then Minutes(minutes)
    else if hours < 24 then Hours(hours)
    else if days < 7 then Days(days)
    else if weeks < 4 then Weeks(weeks)
    else CalendarDate
  }

  /** Decimal digits of a natural number, as a template literal prints it. */
  function Decimal(n: nat): (s: string)
    ensures |s| >= 1
    ensures forall k :: 0 <= k < |s| ==> IsDigit(s[k])
  {
    var digit := ['0' + (n % 10) as char];
    if n < 10 then digit else Decimal(n / 10) + digit
  }

  predicate IsDigit(c: char)
  {
    '0' <= c <= '9'
  }

  /** The number a string of decimal digits denotes, read most significant
      digit first; the reference against which `Decimal` is checked. */
  function DigitsValue(s: string): nat
  {
    if |s| == 0 then 0
    else
      var last := s[|s| - 1];
      10 * DigitsValue(s[..|s| - 1]) + (if IsDigit(last) then last as int - '0' as int else 0)
  }

  /** The longest run of digits at the front of a string. */
  function LeadingDigits(s: string): (d: string)
    ensures |d| <= |s| && d == s[..|d|]
  {
    if |s| == 0 || !IsDigit(s[0]) then [] else [s[0]] + LeadingDigits(s[1..])
  }

  /** `Decimal` prints its argument: reading the digits back gives `n`. */
  lemma {:induction false} DecimalRoundTrip(n: nat)
    ensures DigitsValue(Decimal(n)) == n
  {
    if n >= 10 {
      DecimalRoundTrip(n / 10);
      var s := Decimal(n);
      assert s[..|s| - 1] == Decimal(n / 10);
    }
  }

  /** The digits of a run followed by a non-digit are exactly that run. */
  lemma {:induction false} LeadingDigitsOfRun(d: string, rest: string)
    requires forall k :: 0 <= k < |d| ==> IsDigit(d[k])
    requires |rest| > 0 && !IsDigit(rest[0])
    ensures LeadingDigits(d + rest) == d
  {
    if |d| > 0 {
      assert (d + rest)[1..] == d[1..] + rest;
      LeadingDigitsOfRun(d[1..], rest);
    }
  }

  /** The unit word of a counted bucket. */
  function UnitWord(e: Elapsed): string
    requires e.Minutes? || e.Hours? || e.Days? || e.Weeks?
  {
    match e
    case Minutes(_) => "min"
    case Hours(_) => "hour"
    case Days(_) => "day"
    case Weeks(_) => "week"
  }

  /** `word` with the plural `s` when `count > 1`: the leading digits read
      back as `count`, and a singular word ends in `s` only when pluralised. */
  function Counted(count: nat, word: string): (r: string)
    ensures LeadingDigits(r) == Decimal(count) && DigitsValue(LeadingDigits(r)) == count
    ensures |word| > 0 && word[|word| - 1] != 's' ==> (r[|r| - 1] == 's' <==> count > 1)
  {
    var d := Decimal(count);
    var r := d + " " + word + (if count > 1 then "s" else "");
    assert r == d + (" " + word + (if count > 1 then "s" else ""));
    LeadingDigitsOfRun(d, " " + word + (if count > 1 then "s" else ""));
    DecimalRoundTrip(count);
    r
  }

  /** The phrase `timeAgo` returns for a bucket; None for the calendar-date
      fallback, whose formatting is not part of this model. A counted bucket
      reads as its count in decimal, a space and the unit word, with the
      plural `s` for hours, days and weeks above one. */
  function Phrase(e: Elapsed): (r: Option<string>)
    ensures r.None? <==> e.CalendarDate?
    ensures e.JustNow? ==> r == Some("just now")
    ensures (e.Minutes? || e.Hours? || e.Days? || e.Weeks?) && e.count >= 0 ==>
      r == Some(Decimal(e.count) + " " + UnitWord(e) + (if !e.Minutes? && e.count > 1 then "s" else ""))
  {
    match e
    case JustNow => Some("just now")
    case Minutes(n) =>
      var d := Decimal(if n < 0 then 0 else n);
      assert d + " min" == d + " " + "min" + "";
      Some(d + " min")
    case Hours(n) => Some(Counted(if n < 0 then 0 else n, "hour"))
    case Days(n) => Some(Counted(if n < 0 then 0 else n, "day"))
    case Weeks(n) => Some(Counted(if n < 0 then 0 else n, "week"))
    case CalendarDate => None
  }

  /** Hours, days and weeks end in the plural `s` exactly when the count
      exceeds one; minutes never do. */
  lemma PluralOnlyAboveOne(diffMs: int)
    requires var e := ElapsedBucket(diffMs); e.Minutes? || e.Hours? || e.Days? || e.Weeks?
    ensures var e := ElapsedBucket(diffMs); var p := Phrase(e).value;
      p[|p| - 1] == 's' <==> !e.Minutes? && e.count > 1
  {
  }

  /** `timeAgo` given the elapsed milliseconds: the phrase of its bucket. A
      counted phrase shows the whole number of elapsed units, rounded down,
      then its unit word. */
  function TimeAgo(diffMs: int): (r: Option<string>)
    ensures r == Some("just now") <==> diffMs < MS_PER_MINUTE
    ensures r.None? <==> diffMs >= 4 * MS_PER_WEEK
    ensures MS_PER_MINUTE <= diffMs < 4 * MS_PER_WEEK ==>
      var e := ElapsedBucket(diffMs); var n := diffMs / UnitMs(e);
      && r == Some(Decimal(n) + " " + UnitWord(e) + (if !e.Minutes? && n > 1 then "s" else ""))
      && DigitsValue(LeadingDigits(r.value)) == n
  {
    var e := ElapsedBucket(diffMs);
    if e.Minutes? || e.Hours? || e.Days? || e.Weeks? then
      FloorDivUnique(diffMs, UnitMs(e), e.count);
      var tail := " " + UnitWord(e) + (if !e.Minutes? && e.count > 1 then "s" else "");
      assert Decimal(e.count) + " " + UnitWord(e) + (if !e.Minutes? && e.count > 1 then "s" else "")
        == Decimal(e.count) + tail;
      LeadingDigitsOfRun(Decimal(e.count), tail);
      DecimalRoundTrip(e.count);
      Phrase(e)
    else
      Phrase(e)
  }

  /** The quotient is the count of whole units that fit. */
  lemma FloorDivUnique(x: int, u: int, c: int)
    requires u > 0 && c * u <= x < (c + 1) * u
    ensures x / u == c
  {
    var q := x / u;
    assert q * u <= x < q * u + u;
    assert (q - c) * u == q * u - c * u && (c - q) * u == c * u - q * u;
    BelowOneUnit(q - c, u);
    BelowOneUnit(c - q, u);
  }

  /** Fewer than one unit means a multiplier below one. */
  lemma BelowOneUnit(k: int, u: int)
    requires u > 0
    ensures k * u < u ==> k < 1
  {
    if k >= 1 {
      assert k * u == (k - 1) * u + u;
      assert (k - 1) * u >= 0;
    }
  }

  /** Worked examples: 90 s, exactly one hour, two days and three weeks. */
  lemma TimeAgoExamples()
    ensures TimeAgo(90 * 1000) == Some("1 min")
    ensures TimeAgo(MS_PER_HOUR) == Some("1 hour")
    ensures TimeAgo(2 * MS_PER_DAY + 5) == Some("2 days")
    ensures TimeAgo(3 * MS_PER_WEEK) == Some("3 weeks")
  {
    assert Decimal(1) == "1" && Decimal(2) == "2" && Decimal(3) == "3";
    assert ElapsedBucket(90 * 1000) == Minutes(1);
    assert ElapsedBucket(MS_PER_HOUR) == Hours(1);
    assert ElapsedBucket(2 * MS_PER_DAY + 5) == Days(2);
    assert ElapsedBucket(3 * MS_PER_WEEK) == Weeks(3);
    assert "1" + " min" == "1 min";
    assert "1" + " " + "hour" + "" == "1 hour";
    assert "2" + " " + "day" + "s" == "2 days";
    assert "3" + " " + "week" + "s" == "3 weeks";
  }
}
