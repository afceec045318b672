/** The period tables of consts.ts: the buttons shown above the chart and the
    label-to-lookback-days table that drives the OHLC request. */
module Consts {
  import opened Wrappers

  /** One entry of PERIOD_BUTTONS: the caption shown and the period it selects. */
  datatype PeriodButton = PeriodButton(caption: string, value: string)

  /** One entry of CHART_PERIODS: a period name (`label` in the source) and its lookback window in days. */
  datatype ChartPeriod = ChartPeriod(name: string, days: nat)

  const PERIOD_BUTTONS: seq<PeriodButton> := [
    PeriodButton("1D", "daily"),
    PeriodButton("7D", "weekly"),
    PeriodButton("1M", "monthly"),
    PeriodButton("3M", "quarterly"),
    PeriodButton("1Y", "yearly")
  ]

  const CHART_PERIODS: seq<ChartPeriod> := [
    ChartPeriod("daily", 1),
    ChartPeriod("weekly", 7),
    ChartPeriod("monthly", 30),
    ChartPeriod("quarterly", 90),
    ChartPeriod("yearly", 365)
  ]

  /** True when `period` is the value of some period button. */
  predicate IsButtonValue(period: string)
  {
    exists i :: 0 <= i < |PERIOD_BUTTONS| && PERIOD_BUTTONS[i].value == period
  }

  /** `table.find(p => p.label === key)?.days`: the days of the FIRST entry
      whose label is `key`, or None when no entry does. */
  function Find(table: seq<ChartPeriod>, key: string): (r: Option<nat>)
    ensures r.None? <==> forall i :: 0 <= i < |table| ==> table[i].name != key
    ensures r.Some? ==> exists i :: 0 <= i < |table| && table[i].name == key && table[i].days == r.value
                          && forall j :: 0 <= j < i ==> table[j].name != key
  {
    if |table| == 0 then None
    else if table[0].name == key then Some(table[0].days)
    else
      var r := Find(table[1..], key);
      assert forall i :: 1 <= i < |table| ==> table[i] == table[1..][i - 1];
      r
  }

  /** The `days` request parameter for a selected period. */
  function LookupDays(period: string): (r: Option<nat>)
    ensures r.Some? <==> exists i :: 0 <= i < |CHART_PERIODS| && CHART_PERIODS[i].name == period
  {
    Find(CHART_PERIODS, period)
  }

  /** The button values, in table order, are the five period names. */
  lemma ButtonValuesInOrder()
    ensures |PERIOD_BUTTONS| == 5
    ensures PERIOD_BUTTONS[0].value == "daily" && PERIOD_BUTTONS[1].value == "weekly"
    ensures PERIOD_BUTTONS[2].value == "monthly" && PERIOD_BUTTONS[3].value == "quarterly"
    ensures PERIOD_BUTTONS[4].value == "yearly"
  {
  }

  /** Button values are pairwise distinct, so at most one button matches a period. */
  lemma ButtonValuesDistinct()
    ensures forall i, j :: 0 <= i < j < |PERIOD_BUTTONS| ==> PERIOD_BUTTONS[i].value != PERIOD_BUTTONS[j].value
  {
  }

  /** The lookup yields 1, 7, 30, 90 and 365 days for the five periods, and
      nothing for any other string. */
  lemma {:induction false} DaysTable(period: string)
    ensures period == "daily" ==> LookupDays(period) == Some(1)
    ensures period == "weekly" ==> LookupDays(period) == Some(7)
    ensures period == "monthly" ==> LookupDays(period) == Some(30)
    ensures period == "quarterly" ==> LookupDays(period) == Some(90)
    ensures period == "yearly" ==> LookupDays(period) == Some(365)
    ensures !IsButtonValue(period) ==> LookupDays(period).None?
  {
    if !IsButtonValue(period) {
      forall i | 0 <= i < |CHART_PERIODS| ensures CHART_PERIODS[i].name != period {
        assert CHART_PERIODS[i].name == PERIOD_BUTTONS[i].value;
      }
    }
  }

  /** Every button value is a CHART_PERIODS label, so the lookup behind a
      button click always finds a day count. */
  lemma {:induction false} EveryButtonHasDays(period: string)
    requires IsButtonValue(period)
    ensures LookupDays(period).Some?
  {
    var i :| 0 <= i < |PERIOD_BUTTONS| && PERIOD_BUTTONS[i].value == period;
    assert CHART_PERIODS[i].name == period;
  }

  /** Labels of CHART_PERIODS are unique and the day counts strictly increase in
      table order. */
  lemma ChartPeriodsOrdered()
    ensures forall i, j :: 0 <= i < j < |CHART_PERIODS| ==>
      CHART_PERIODS[i].name != CHART_PERIODS[j].name && CHART_PERIODS[i].days < CHART_PERIODS[j].days
  {
  }
}
