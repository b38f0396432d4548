/** The usage statistics endpoints: the per-app summary of event counts and
    the daily series of one app, computed from the grouped counts the
    database returns (given here as sequences). Dates are day numbers; the
    clock is a parameter. */
module Stats {
  import opened Wrappers
  import opened Dicts
  import opened Registry

  /** The error of a `days` outside `1..365`, raised by request validation
      before the handler runs (its detail text is not modelled). */
  const InvalidDays: HttpError := HttpError(422, "")

  predicate DaysValid(days: int) {
    1 <= days <= 365
  }

  // ---------------------------------------------------------------------------
  // Summary
  // ---------------------------------------------------------------------------

  /** `EventCount`: one row of the per-type count of an app's events. */
  datatype EventCount = EventCount(eventType: string, count: nat)

  /** An app with the grouped counts of its events since the cutoff. */
  datatype AppRow = AppRow(id: string, name: string, counts: seq<EventCount>)

  datatype AppStats = AppStats(appId: string, appName: string, events: seq<EventCount>, total: nat)

  datatype StatsSummary = StatsSummary(apps: seq<AppStats>, total: nat, days: int)

  /** `sum(ec.count for ec in event_counts)`. */
  function Sum(counts: seq<EventCount>): nat {
    if counts == [] then 0 else Sum(counts[..|counts| - 1]) + counts[|counts| - 1].count
  }

  function StatsOf(row: AppRow): AppStats {
    AppStats(row.id, row.name, row.counts, Sum(row.counts))
  }

  /** The apps listed, in order: those with at least one count row. */
  function Listed(rows: seq<AppRow>): seq<AppStats> {
    if rows == [] then []
    else
      var init := Listed(rows[..|rows| - 1]);
      var row := rows[|rows| - 1];
      if row.counts != [] then init + [StatsOf(row)] else init
  }

  /** The total over every app. */
  function Total(rows: seq<AppRow>): nat {
    if rows == [] then 0 else Total(rows[..|rows| - 1]) + Sum(rows[|rows| - 1].counts)
  }

  /** The sum of the listed totals. */
  function TotalOfListed(stats: seq<AppStats>): nat {
    if stats == [] then 0 else TotalOfListed(stats[..|stats| - 1]) + stats[|stats| - 1].total
  }

  /** `get_stats_summary(days)`: rejected for `days` outside `1..365`;
      otherwise the listed apps and the total over all apps. */
  method GetStatsSummary(days: int, rows: seq<AppRow>) returns (r: Result<StatsSummary, HttpError>)
    ensures !DaysValid(days) ==> r == Failure(InvalidDays)
    ensures DaysValid(days) ==> r == Success(StatsSummary(Listed(rows), Total(rows), days))
  {
    if !DaysValid(days) {
      return Failure(InvalidDays);
    }
    var appsStats: seq<AppStats> := [];
    var totalEvents: nat := 0;
    var i := 0;
    while i < |rows|
      invariant 0 <= i <= |rows|
      invariant appsStats == Listed(rows[..i])
      invariant totalEvents == Total(rows[..i])
    {
      assert rows[..i + 1][..i] == rows[..i];
      var row := rows[i];
      var appTotal := Sum(row.counts);
      totalEvents := totalEvents + appTotal;
      if row.counts != [] {
        appsStats := appsStats + [AppStats(row.id, row.name, row.counts, appTotal)];
      }
      i := i + 1;
    }
    assert rows[..i] == rows;
    r := Success(StatsSummary(appsStats, totalEvents, days));
  }

  /** An app is listed exactly when it has a count row, with its own total. */
  lemma {:induction false} ListedMembers(rows: seq<AppRow>, s: AppStats)
    ensures s in Listed(rows) <==> exists k :: 0 <= k < |rows| && rows[k].counts != [] && s == StatsOf(rows[k])
  {
    if rows != [] {
      var n := |rows| - 1;
      var init := rows[..n];
      ListedMembers(init, s);
      if s in Listed(rows) {
        if s in Listed(init) {
          var k :| 0 <= k < |init| && init[k].counts != [] && s == StatsOf(init[k]);
          assert rows[k] == init[k];
        } else {
          assert rows[n].counts != [] && s == StatsOf(rows[n]);
        }
      }
      if exists k :: 0 <= k < |rows| && rows[k].counts != [] && s == StatsOf(rows[k]) {
        var k :| 0 <= k < |rows| && rows[k].counts != [] && s == StatsOf(rows[k]);
        if k < n {
          assert init[k] == rows[k];
          assert s in Listed(init);
        }
      }
    }
  }

  /** The summary's total is the sum of the listed apps' totals: an app left
      out has no events to add. */
  lemma {:induction false} TotalIsSumOfListed(rows: seq<AppRow>)
    ensures Total(rows) == TotalOfListed(Listed(rows))
  {
    if rows != [] {
      var n := |rows| - 1;
      TotalIsSumOfListed(rows[..n]);
      var init := Listed(rows[..n]);
      if rows[n].counts != [] {
        assert (init + [StatsOf(rows[n])])[..|init|] == init;
      }
    }
  }

  // ---------------------------------------------------------------------------
  // Time series
  // ---------------------------------------------------------------------------

  datatype Point = Point(day: int, count: nat)

  datatype TimeSeries = TimeSeries(appId: string, appName: string, eventType: string, series: seq<Point>)

  /** The count of the day in the grouped counts, 0 when the day has no row
      (the rows are turned into a dict first). */
  function CountOn(rows: seq<(int, nat)>, day: int): nat {
    GetOr(Collect(seq(|rows|, k requires 0 <= k < |rows| => Some(rows[k]))), day, 0)
  }

  /** `get_app_time_series(app_id, event_type, days)`, given the app found by
      its id (`None` when there is none), `today` and the grouped daily
      counts: one point per day from `today - days` to `today`, ascending. */
  method GetAppTimeSeries(app: Option<(string, string)>, eventType: string, days: int, today: int, rows: seq<(int, nat)>)
    returns (r: Result<TimeSeries, HttpError>)
    ensures !DaysValid(days) ==> r == Failure(InvalidDays)
    ensures DaysValid(days) && app.None? ==> r == Failure(AppNotFound)
    ensures DaysValid(days) && app.Some? ==>
      && r.Success? && r.value.appId == app.value.0 && r.value.appName == app.value.1 && r.value.eventType == eventType
      && |r.value.series| == days + 1
      && forall k :: 0 <= k < |r.value.series| ==> r.value.series[k] == Point(today - days + k, CountOn(rows, today - days + k))
  {
    if !DaysValid(days) {
      return Failure(InvalidDays);
    }
    if app.None? {
      return Failure(AppNotFound);
    }
    var eventsDict := Collect(seq(|rows|, k requires 0 <= k < |rows| => Some(rows[k])));
    var series: seq<Point> := [];
    var current := today - days;
    while current <= today
      invariant today - days <= current <= today + 1
      invariant |series| == current - (today - days)
      invariant forall k :: 0 <= k < |series| ==> series[k] == Point(today - days + k, CountOn(rows, today - days + k))
      decreases today - current
    {
      series := series + [Point(current, GetOr(eventsDict, current, 0))];
      current := current + 1;
    }
    r := Success(TimeSeries(app.value.0, app.value.1, eventType, series));
  }

  /** A day with a row gets that row's count (the rows are grouped by day,
      so there is one per day). */
  lemma CountOnRow(rows: seq<(int, nat)>, i: nat)
    requires i < |rows|
    requires forall j :: 0 <= j < |rows| && j != i ==> rows[j].0 != rows[i].0
    ensures CountOn(rows, rows[i].0) == rows[i].1
  {
    var es := seq(|rows|, k requires 0 <= k < |rows| => Some(rows[k]));
    assert LastFor(es, i, rows[i].0);
    CollectLast(es, rows[i].0, i);
  }

  /** A day without a row counts 0. */
  lemma CountOnNoRow(rows: seq<(int, nat)>, day: int)
    requires forall j :: 0 <= j < |rows| ==> rows[j].0 != day
    ensures CountOn(rows, day) == 0
  {
    var es := seq(|rows|, k requires 0 <= k < |rows| => Some(rows[k]));
    CollectAbsent(es, day);
  }
}
