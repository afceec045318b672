/** The candlestick chart component of components/CandleStickChart.tsx: the
    selected period, the bound OHLC data, the pending flag of a period change,
    and the chart surface with its candlestick series, created by an effect on
    mount (and on a change of `height`), resized by a resize observer, and
    removed by that effect's cleanup. React's effect scheduling is modelled as
    discrete, sequential events; the fetch is an abstract outcome delivered by
    FetchSucceeded or FetchFailed. */
module CandleStickChart {
  import opened Wrappers
  import opened Utils
  import opened Consts

  /** The chart surface (`chartRef.current` with its series): not created yet,
      live, or removed by a cleanup. */
  datatype Surface<P> =
    | Absent
    | Active(width: int, height: int, timeVisible: bool, series: seq<CandlePoint<P>>)
    | Removed

  /** The OHLC request: endpoint and query. `days` is None when the period has
      no entry in CHART_PERIODS (the parameter is then omitted). */
  datatype OhlcQuery = OhlcQuery(endpoint: string, vsCurrency: string, days: Option<nat>, precision: string)

  /** One rendered period button. */
  datatype ButtonView = ButtonView(caption: string, value: string, active: bool, disabled: bool)

  /** Whether the time axis shows the time of day for a period: exactly the
      periods spanning at most 30 days. */
  function ShowsTime(period: string): (timeVisible: bool)
    ensures timeVisible <==> LookupDays(period).Some? && LookupDays(period).value <= 30
  {
    DaysTable(period);
    ButtonValuesInOrder();
    period in ["daily", "weekly", "monthly"]
  }

  /** What the series shows for the bound data: every timestamp converted to
      seconds, then adjacent duplicates dropped. */
  function DisplayedSeries<P>(data: seq<Ohlc<P>>): (r: seq<CandlePoint<P>>)
    ensures |r| <= |data|
    ensures forall j :: 0 < j < |r| ==> r[j - 1].time != r[j].time
    ensures |data| > 0 ==> |r| > 0 && r[0] == ToPoint(data[0]).(time := ToSeconds(data[0].time))
  {
    ConvertOhlcData(TuplesToSeconds(data))
  }

  /** The request `fetchOhlcData` issues for a period. */
  function RequestFor(coinId: string, period: string): (q: OhlcQuery)
    ensures q.endpoint == "/coins/" + coinId + "/ohlc"
    ensures q.vsCurrency == "usd" && q.precision == "full"
    ensures q.days.Some? <==> exists i :: 0 <= i < |CHART_PERIODS| && CHART_PERIODS[i].name == period
    ensures q.days.Some? ==> exists i :: 0 <= i < |CHART_PERIODS| && CHART_PERIODS[i].name == period && CHART_PERIODS[i].days == q.days.value
  {
    OhlcQuery("/coins/" + coinId + "/ohlc", "usd", LookupDays(period), "full")
  }

  /** The period buttons as rendered: in table order, the one whose value is
      the selected period marked active, all disabled while a period change is
      pending. */
  function Buttons(period: string, isPending: bool): (r: seq<ButtonView>)
    ensures |r| == |PERIOD_BUTTONS|
    ensures forall i :: 0 <= i < |r| ==>
      && r[i].caption == PERIOD_BUTTONS[i].caption && r[i].value == PERIOD_BUTTONS[i].value
      && (r[i].active <==> PERIOD_BUTTONS[i].value == period)
      && (r[i].disabled <==> isPending)
  {
    seq(|PERIOD_BUTTONS|, i requires 0 <= i < |PERIOD_BUTTONS| =>
      ButtonView(PERIOD_BUTTONS[i].caption, PERIOD_BUTTONS[i].value, PERIOD_BUTTONS[i].value == period, isPending))
  }

  /** When the selected period is a button value, exactly one button is
      active: the one for that period. */
  lemma {:induction false} ExactlyOneActiveButton(period: string, isPending: bool)
    requires IsButtonValue(period)
    ensures exists i :: 0 <= i < |PERIOD_BUTTONS| && Buttons(period, isPending)[i].active
    ensures forall i, j :: 0 <= i < j < |PERIOD_BUTTONS| ==> !(Buttons(period, isPending)[i].active && Buttons(period, isPending)[j].active)
  {
    ButtonValuesDistinct();
    var k :| 0 <= k < |PERIOD_BUTTONS| && PERIOD_BUTTONS[k].value == period;
    assert Buttons(period, isPending)[k].active;
  }

  class Chart<P> {
    /** The coin whose prices are charted (`coinId`, 'bitcoin' by default). */
    const coinId: string
    /** The `height` property; the surface effect depends on it alone. */
    var height: int
    /** `period` state. */
    var period: string
    /** `ohlcData` state: the raw tuples, timestamps in milliseconds. */
    var ohlcData: seq<Ohlc<P>>
    /** `isPending` of the period-change transition. */
    var isPending: bool
    /** `chartContainerRef.current != null`. */
    var containerAttached: bool
    /** `chartRef.current` and what it shows. */
    var surface: Surface<P>
    /** `candlestickSeriesRef.current != null`. */
    var seriesAttached: bool
    /** The resize observer is connected. */
    var observing: bool
    /** The period of the fetch in flight, if any. */
    ghost var inFlight: Option<string>
    /** The period the bound data was fetched for. */
    ghost var dataPeriod: string

    /** Between events: the period is a button value; a fetch is in flight
        exactly while the change is pending, and it is for the selected period;
        the container and series references and the observer are set exactly
        while the surface is live, and a live surface shows the bound data. */
    ghost predicate Valid()
      reads this
    {
      && IsButtonValue(period)
      && (isPending <==> inFlight.Some?)
      && (inFlight.Some? ==> inFlight.value == period)
      && (seriesAttached <==> surface.Active?)
      && (observing <==> surface.Active?)
      && (containerAttached <==> surface.Active?)
      && (surface.Active? ==> surface.series == DisplayedSeries(ohlcData))
    }

    /** The first render: the coin defaults to 'bitcoin' and the height to 400
        when not passed, period 'daily', the initial data (`data ?? []`, the
        daily series the page fetched), nothing pending, no surface yet. */
    constructor (coinId: Option<string>, data: Option<seq<Ohlc<P>>>, height: Option<int>)
      ensures Valid()
      ensures this.coinId == coinId.GetOr("bitcoin") && this.height == height.GetOr(400)
      ensures period == "daily" && ohlcData == data.GetOr([]) && !isPending && dataPeriod == "daily"
      ensures surface == Absent && !containerAttached
    {
      this.coinId := coinId.GetOr("bitcoin");
      this.height := height.GetOr(400);
      period := "daily";
      ohlcData := data.GetOr([]);
      isPending := false;
      containerAttached := false;
      surface := Absent;
      seriesAttached := false;
      observing := false;
      inFlight := None;
      dataPeriod := "daily";
      ButtonValuesInOrder();
    }

    /** The body of the surface effect: nothing without a container; otherwise
        create the surface at the container's width with the time-of-day
        setting of the current period, bind the data as it is (timestamps
        still in milliseconds) and start observing the container. */
    method CreateSurface(clientWidth: int)
      requires !observing
      modifies this
      ensures old(containerAttached) ==>
        && surface == Active(clientWidth, height, ShowsTime(period), ConvertOhlcData(ohlcData))
        && seriesAttached && observing
      ensures !old(containerAttached) ==> surface == old(surface) && seriesAttached == old(seriesAttached) && !observing
      ensures height == old(height) && period == old(period) && ohlcData == old(ohlcData) && isPending == old(isPending)
      ensures containerAttached == old(containerAttached) && inFlight == old(inFlight) && dataPeriod == old(dataPeriod)
    {
      if !containerAttached {
        return;
      }
      surface := Active(clientWidth, height, ShowsTime(period), ConvertOhlcData(ohlcData));
      seriesAttached := true;
      observing := true;
    }

    /** The cleanup of the surface effect: remove the chart, disconnect the
        observer, and null the container and series references. */
    method Cleanup()
      modifies this
      ensures surface == (if old(surface).Active? then Removed else old(surface))
      ensures !containerAttached && !seriesAttached && !observing
      ensures height == old(height) && period == old(period) && ohlcData == old(ohlcData) && isPending == old(isPending)
      ensures inFlight == old(inFlight) && dataPeriod == old(dataPeriod)
    {
      if surface.Active? {
        surface := Removed;
      }
      observing := false;
      containerAttached := false;
      seriesAttached := false;
    }

    /** The data effect (`BindData`): while the series reference is set, bind
        the data converted to seconds and deduplicated; otherwise nothing. */
    method BindData()
      requires seriesAttached ==> surface.Active?
      modifies this
      ensures height == old(height) && period == old(period) && ohlcData == old(ohlcData) && isPending == old(isPending)
      ensures surface == if old(seriesAttached) then old(surface).(series := DisplayedSeries(ohlcData)) else old(surface)
      ensures containerAttached == old(containerAttached) && seriesAttached == old(seriesAttached) && observing == old(observing)
      ensures inFlight == old(inFlight) && dataPeriod == old(dataPeriod)
    {
      if seriesAttached {
        surface := surface.(series := DisplayedSeries(ohlcData));
      }
    }

    /** Mounting: the container is attached, then both effects run in order.
        The millisecond bind of the surface effect is immediately replaced by
        the second-granularity bind of the data effect. */
    method Mount(clientWidth: int)
      requires Valid() && surface == Absent
      modifies this
      ensures Valid()
      ensures surface == Active(clientWidth, height, ShowsTime(period), DisplayedSeries(ohlcData))
      ensures containerAttached
      ensures height == old(height) && period == old(period) && ohlcData == old(ohlcData) && isPending == old(isPending)
      ensures inFlight == old(inFlight) && dataPeriod == old(dataPeriod)
    {
      containerAttached := true;
      CreateSurface(clientWidth);
      BindData();
    }

    /** A click on the period button whose value is `newPeriod`. A disabled
        button (a change is pending) and the already selected period do
        nothing. Otherwise the period is written first, the data effect re-runs
        on the unchanged data, and the request for the new period is issued. */
    method SelectPeriod(newPeriod: string) returns (request: Option<OhlcQuery>)
      requires Valid() && IsButtonValue(newPeriod)
      modifies this
      ensures Valid()
      ensures old(isPending) || newPeriod == old(period) ==>
        && request.None?
        && period == old(period) && isPending == old(isPending) && inFlight == old(inFlight)
      ensures !old(isPending) && newPeriod != old(period) ==>
        && request == Some(RequestFor(coinId, newPeriod))
        && request.value.days.Some?
        && period == newPeriod && isPending && inFlight == Some(newPeriod)
      ensures ohlcData == old(ohlcData) && surface == old(surface) && height == old(height)
      ensures containerAttached == old(containerAttached) && dataPeriod == old(dataPeriod)
    {
      if isPending || newPeriod == period {
        return None;
      }
      period := newPeriod;
      isPending := true;
      inFlight := Some(newPeriod);
      BindData();
      EveryButtonHasDays(newPeriod);
      request := Some(RequestFor(coinId, newPeriod));
    }

    /** The fetch resolved: the data becomes the response (`[]` when it is
        nullish), the transition ends and the data effect rebinds the series.
        The data is that of the selected period. */
    method FetchSucceeded(response: Option<seq<Ohlc<P>>>)
      requires Valid() && isPending
      modifies this
      ensures Valid()
      ensures ohlcData == response.GetOr([]) && !isPending
      ensures dataPeriod == period
      ensures surface == if old(surface).Active? then old(surface).(series := DisplayedSeries(ohlcData)) else old(surface)
      ensures period == old(period) && height == old(height) && containerAttached == old(containerAttached)
    {
      ohlcData := response.GetOr([]);
      dataPeriod := inFlight.value;
      isPending := false;
      inFlight := None;
      BindData();
    }

    /** The fetch failed: the error is only logged; the transition ends and
        the data (possibly of an earlier period) stays bound. */
    method FetchFailed()
      requires Valid() && isPending
      modifies this
      ensures Valid()
      ensures !isPending
      ensures ohlcData == old(ohlcData) && dataPeriod == old(dataPeriod) && surface == old(surface)
      ensures period == old(period) && height == old(height) && containerAttached == old(containerAttached)
    {
      isPending := false;
      inFlight := None;
    }

    /** A resize-observer callback with the observed widths: ignored without
        entries (or once the observer is disconnected); otherwise the surface
        takes the first width and nothing else changes. */
    method Resize(widths: seq<int>)
      requires Valid()
      modifies this
      ensures Valid()
      ensures surface == if old(observing) && |widths| > 0 then old(surface).(width := widths[0]) else old(surface)
      ensures observing == old(observing) && seriesAttached == old(seriesAttached)
      ensures period == old(period) && ohlcData == old(ohlcData) && isPending == old(isPending) && height == old(height)
      ensures containerAttached == old(containerAttached) && inFlight == old(inFlight) && dataPeriod == old(dataPeriod)
    {
      if !observing || |widths| == 0 {
        return;
      }
      surface := surface.(width := widths[0]);
    }

    /** Unmounting runs the cleanup of the last surface effect that created a
        surface; afterwards no bind reaches a series. */
    method Unmount()
      requires Valid()
      modifies this
      ensures Valid()
      ensures surface == (if old(surface).Active? then Removed else old(surface))
      ensures !seriesAttached && !observing && !containerAttached
      ensures period == old(period) && ohlcData == old(ohlcData) && isPending == old(isPending) && height == old(height)
      ensures inFlight == old(inFlight) && dataPeriod == old(dataPeriod)
    {
      Cleanup();
    }

    /** A new `height`, as the component runs it: the surface effect's cleanup
        (which nulls the container reference) and then its body, which finds no
        container and returns. The data effect does not re-run. A mounted chart
        therefore has no surface after any change of height. */
    method ChangeHeight(newHeight: int, clientWidth: int)
      requires Valid() && surface != Absent
      modifies this
      ensures Valid()
      ensures height == newHeight
      ensures newHeight != old(height) ==> surface == Removed && !seriesAttached && !containerAttached
      ensures newHeight == old(height) ==> surface == old(surface)
      ensures period == old(period) && ohlcData == old(ohlcData) && isPending == old(isPending)
      ensures inFlight == old(inFlight) && dataPeriod == old(dataPeriod)
    {
      if newHeight == height {
        return;
      }
      if observing {
        Cleanup();
      }
      height := newHeight;
      CreateSurface(clientWidth);
    }

    /** A new `height` as evidently intended: the container stays attached, so
        the surface is recreated at the new height, with the time-of-day
        setting of the current period and the data bound in seconds. */
    method ChangeHeightIntended(newHeight: int, clientWidth: int)
      requires Valid() && containerAttached
      modifies this
      ensures Valid()
      ensures height == newHeight && containerAttached
      ensures newHeight != old(height) ==> surface == Active(clientWidth, newHeight, ShowsTime(period), DisplayedSeries(ohlcData))
      ensures newHeight == old(height) ==> surface == old(surface)
      ensures period == old(period) && ohlcData == old(ohlcData) && isPending == old(isPending)
      ensures inFlight == old(inFlight) && dataPeriod == old(dataPeriod)
    {
      if newHeight == height {
        return;
      }
      if observing {
        surface := Removed;
        observing := false;
        seriesAttached := false;
      }
      height := newHeight;
      CreateSurface(clientWidth);
      BindData();
    }
  }

  /** A mounted chart loses its surface when its height changes. */
  method HeightChangeLosesSurface<P>(data: seq<Ohlc<P>>) returns (s: Surface<P>)
    ensures s == Removed
  {
    var chart := new Chart<P>(None, Some(data), None);
    chart.Mount(800);
    chart.ChangeHeight(500, 800);
    s := chart.surface;
  }

  /** A period change as the buttons allow it: a second click while the first
      fetch is pending is ignored, so the response that arrives is for the
      selected period; a later failed change leaves that data bound while the
      newer period is shown as selected. */
  method PeriodChangeScenario<P>(initial: seq<Ohlc<P>>, weekly: seq<Ohlc<P>>)
    returns (first: Option<OhlcQuery>, ignored: Option<OhlcQuery>, data: seq<Ohlc<P>>, period: string)
    ensures first == Some(OhlcQuery("/coins/bitcoin/ohlc", "usd", Some(7), "full"))
    ensures ignored.None?
    ensures data == weekly && period == "monthly"
  {
    var chart := new Chart<P>(None, Some(initial), None);
    chart.Mount(800);
    DaysTable("weekly");
    ButtonValuesInOrder();
    assert IsButtonValue("weekly") by { assert PERIOD_BUTTONS[1].value == "weekly"; }
    assert IsButtonValue("monthly") by { assert PERIOD_BUTTONS[2].value == "monthly"; }
    assert "/coins/" + "bitcoin" + "/ohlc" == "/coins/bitcoin/ohlc";
    first := chart.SelectPeriod("weekly");
    assert chart.isPending && chart.period == "weekly";
    ignored := chart.SelectPeriod("monthly");
    chart.FetchSucceeded(Some(weekly));
    assert chart.ohlcData == weekly && !chart.isPending && chart.period == "weekly";
    var second := chart.SelectPeriod("monthly");
    chart.FetchFailed();
    data, period := chart.ohlcData, chart.period;
  }
}
