/** The dashboard's chart endpoints: reports per category over a date range,
    the per-day line series of one category, and the statistics cards read
    through the cache. Days are whole day numbers; timestamps are seconds. */
module ChartController {
  import opened Common
  import opened ArticleModel
  import opened Store
  import Cache

  const SECONDS_PER_DAY: nat := 86400
  const MAX_SPAN_DAYS: nat := 365

  /** The calendar day of a timestamp. */
  function DayOf(t: int): int { t / SECONDS_PER_DAY }

  /** A date parameter as the validator sees it. */
  datatype DateField = Missing | Given(day: int) | Unparsable

  // ------------------------------------------------------------- getReports

  /** The query parameters of `getReports`. */
  datatype ReportsRequest = ReportsRequest(from: DateField, to: DateField, typeOfReport: Option<string>)

  /** `from` and `to` nullable dates with `to` not before `from`, and the
      category, when given, one of the ten. */
  predicate ValidReportsRequest(r: ReportsRequest) {
    && !r.from.Unparsable? && !r.to.Unparsable?
    && (r.from.Given? && r.to.Given? ==> r.to.day >= r.from.day)
    && (r.typeOfReport.Some? ==> IsReportType(r.typeOfReport.value))
  }

  /** An article created within the days `lo..hi`, of the category when one is given. */
  predicate InReportWindow(a: Article, lo: int, hi: int, typeOfReport: Option<string>) {
    lo <= DayOf(a.createdAt) <= hi && (typeOfReport.Some? ==> a.typeOfReport == typeOfReport.value)
  }

  /** How many stored articles of category `t` fall in the window. */
  function CountOfType(articles: map<nat, Article>, lo: int, hi: int, typeOfReport: Option<string>, t: string): nat {
    |set k | k in articles && InReportWindow(articles[k], lo, hi, typeOfReport) && articles[k].typeOfReport == t|
  }

  /** The `group by type_of_report` result: each category present in the window with its count. */
  function GroupCounts(articles: map<nat, Article>, lo: int, hi: int, typeOfReport: Option<string>): map<string, nat> {
    var present := set k | k in articles && InReportWindow(articles[k], lo, hi, typeOfReport) :: articles[k].typeOfReport;
    map t | t in present :: CountOfType(articles, lo, hi, typeOfReport, t)
  }

  /** The chart lists exactly the categories of the articles in the window,
      each with a positive count; a category filter leaves at most that one. */
  lemma {:induction false} GroupCountsFacts(articles: map<nat, Article>, lo: int, hi: int, typeOfReport: Option<string>)
    ensures var g := GroupCounts(articles, lo, hi, typeOfReport);
      && (forall t :: t in g <==> exists k | k in articles :: InReportWindow(articles[k], lo, hi, typeOfReport) && articles[k].typeOfReport == t)
      && (forall t | t in g :: g[t] > 0)
      && (typeOfReport.Some? ==> g.Keys <= {typeOfReport.value})
  {
    var g := GroupCounts(articles, lo, hi, typeOfReport);
    forall t | t in g ensures g[t] > 0 {
      var k :| k in articles && InReportWindow(articles[k], lo, hi, typeOfReport) && articles[k].typeOfReport == t;
      var matching := set j | j in articles && InReportWindow(articles[j], lo, hi, typeOfReport) && articles[j].typeOfReport == t;
      assert k in matching;
      assert g[t] == |matching|;
    }
  }

  /** `getReports`. Validation failures answer 422; `fallbackFrom` and
      `fallbackTo` stand for the default window used when a bound is missing. */
  function GetReports(articles: map<nat, Article>, req: ReportsRequest, fallbackFrom: int, fallbackTo: int): (r: (Outcome, map<string, nat>))
    ensures r.0 in {Ok, Invalid, BadRequest}
    ensures r.0 == Ok ==> ValidReportsRequest(req)
    ensures r.0 != Ok ==> r.1 == map[]
  {
    if !ValidReportsRequest(req) then (Invalid, map[])
    else
      var from := if req.from.Given? then req.from.day else fallbackFrom;
      var to := if req.to.Given? then req.to.day else fallbackTo;
      if from > to then (BadRequest, map[])
      else if to - from > MAX_SPAN_DAYS then (BadRequest, map[])
      else (Ok, GroupCounts(articles, from, to, req.typeOfReport))
  }

  /** With both dates given: an inverted range is refused by validation, a
      span over 365 days answers 400, and everything else is counted; the
      400 for an inverted range is reached only through the fallback bounds. */
  lemma GetReportsGuards(articles: map<nat, Article>, req: ReportsRequest, fallbackFrom: int, fallbackTo: int)
    requires req.from.Given? && req.to.Given?
    ensures var r := GetReports(articles, req, fallbackFrom, fallbackTo);
      && (req.to.day < req.from.day ==> r.0 == Invalid)
      && (r.0 == BadRequest <==> ValidReportsRequest(req) && req.to.day - req.from.day > MAX_SPAN_DAYS)
      && (r.0 == Ok <==> ValidReportsRequest(req) && req.to.day - req.from.day <= MAX_SPAN_DAYS)
      && (r.0 == Ok ==> r.1 == GroupCounts(articles, req.from.day, req.to.day, req.typeOfReport))
      && (req.typeOfReport.Some? && !IsReportType(req.typeOfReport.value) ==> r.0 == Invalid)
  {
  }

  // ------------------------------------------------------------ getLineData

  /** The named windows of the `date_filter` rule. */
  const DateFilters: set<string> := {"Today", "Yesterday", "Last 7 Days", "Last 30 Days", "This Month", "Last Month", "Custom Range"}

  /** The day numbers the calendar presets need: today, and the first and
      last days of this month and of last month. */
  datatype Calendar = Calendar(today: int, monthStart: int, monthEnd: int, prevMonthStart: int, prevMonthEnd: int)

  /** The query parameters of `getLineData`. */
  datatype LineRequest = LineRequest(typeOfReport: Option<string>, dateFilter: Option<string>, startDate: DateField, endDate: DateField)

  predicate ValidLineRequest(r: LineRequest) {
    && r.typeOfReport.Some? && IsReportType(r.typeOfReport.value)
    && (r.dateFilter.Some? ==> r.dateFilter.value in DateFilters)
    && !r.startDate.Unparsable? && !r.endDate.Unparsable?
    && (r.startDate.Given? && r.endDate.Given? ==> r.endDate.day >= r.startDate.day)
  }

  /** The first and last day of the series. A custom range needs both dates;
      any other or missing filter falls back to the last 30 days. */
  function Window(filter: Option<string>, start: DateField, end: DateField, cal: Calendar): (int, int) {
    var f := if filter.Some? then filter.value else "Last 30 Days";
    if f == "Custom Range" && start.Given? && end.Given? then (start.day, end.day)
    else if f == "Today" then (cal.today, cal.today)
    else if f == "Yesterday" then (cal.today - 1, cal.today - 1)
    else if f == "Last 7 Days" then (cal.today - 6, cal.today)
    else if f == "Last 30 Days" then (cal.today - 29, cal.today)
    else if f == "This Month" then (cal.monthStart, cal.monthEnd)
    else if f == "Last Month" then (cal.prevMonthStart, cal.prevMonthEnd)
    else (cal.today - 29, cal.today)
  }

  /** The day windows of the presets, and the custom range that needs both dates. */
  lemma WindowPresets(start: DateField, end: DateField, cal: Calendar)
    ensures Window(Some("Today"), start, end, cal) == (cal.today, cal.today)
    ensures Window(Some("Yesterday"), start, end, cal) == (cal.today - 1, cal.today - 1)
    ensures Window(Some("Last 7 Days"), start, end, cal) == (cal.today - 6, cal.today)
    ensures Window(Some("Last 30 Days"), start, end, cal) == (cal.today - 29, cal.today)
    ensures Window(None, start, end, cal) == (cal.today - 29, cal.today)
    ensures start.Given? && end.Given? ==> Window(Some("Custom Range"), start, end, cal) == (start.day, end.day)
    ensures !(start.Given? && end.Given?) ==> Window(Some("Custom Range"), start, end, cal) == (cal.today - 29, cal.today)
  {
  }

  /** The windows run forward whenever the calendar's months do and the
      request passed validation. */
  lemma WindowOrdered(r: LineRequest, cal: Calendar)
    requires ValidLineRequest(r)
    requires cal.monthStart <= cal.monthEnd && cal.prevMonthStart <= cal.prevMonthEnd
    ensures Window(r.dateFilter, r.startDate, r.endDate, cal).0 <= Window(r.dateFilter, r.startDate, r.endDate, cal).1
  {
  }

  /** The articles of a category created on day `d`. */
  function CountOn(articles: map<nat, Article>, typeOfReport: string, d: int): nat {
    |set k | k in articles && articles[k].typeOfReport == typeOfReport && DayOf(articles[k].createdAt) == d|
  }

  /** The `group by date order by date` rows of the query over the days
      `lo..hi`: one (day, count) row per day with at least one article. */
  function DailyRows(articles: map<nat, Article>, typeOfReport: string, lo: int, hi: int): (rows: seq<(int, nat)>)
    ensures forall i | 0 <= i < |rows| :: lo <= rows[i].0 <= hi && rows[i].1 > 0
    decreases hi - lo + 1
  {
    if lo > hi then []
    else
      var c := CountOn(articles, typeOfReport, hi);
      var earlier := DailyRows(articles, typeOfReport, lo, hi - 1);
      if c > 0 then earlier + [(hi, c)] else earlier
  }

  /** The value the fill loop leaves for day `d`: the count of the last row
      of that day, or 0 when there is none. */
  function LastCount(rows: seq<(int, nat)>, d: int): nat {
    if rows == [] then 0
    else if rows[|rows| - 1].0 == d then rows[|rows| - 1].1
    else LastCount(rows[..|rows| - 1], d)
  }

  /** The dense series fill: every day from `start` to `end` once, ascending,
      first zero, then overwritten by the row of that day. */
  method FillSeries(start: int, end: int, rows: seq<(int, nat)>) returns (labels: seq<int>, data: seq<nat>)
    ensures |labels| == |data| == (if end >= start then end - start + 1 else 0)
    ensures forall i | 0 <= i < |labels| :: labels[i] == start + i
    ensures forall i | 0 <= i < |data| :: data[i] == LastCount(rows, labels[i])
  {
    var series: map<int, nat> := map[];
    labels := [];
    var current := start;
    while current <= end
      invariant start <= current && (current <= end + 1 || current == start)
      invariant |labels| == current - start
      invariant forall i | 0 <= i < |labels| :: labels[i] == start + i
      invariant forall d :: d in series <==> start <= d < current
      invariant forall d | d in series :: series[d] == 0
      decreases end - current
    {
      series := series[current := 0];
      labels := labels + [current];
      current := current + 1;
    }
    var j := 0;
    while j < |rows|
      invariant 0 <= j <= |rows|
      invariant forall d :: d in series <==> start <= d < current
      invariant forall d | d in series :: series[d] == LastCount(rows[..j], d)
    {
      assert rows[..j + 1][..j] == rows[..j];
      if rows[j].0 in series {
        series := series[rows[j].0 := rows[j].1];
      }
      j := j + 1;
    }
    assert rows[..|rows|] == rows;
    data := [];
    var i := 0;
    while i < |labels|
      invariant 0 <= i <= |labels|
      invariant |data| == i
      invariant forall k | 0 <= k < i :: data[k] == LastCount(rows, labels[k])
    {
      data := data + [series[labels[i]]];
      i := i + 1;
    }
  }

  /** Over the query's rows, the value for a day inside the window is that
      day's count, zero when nothing was created that day. */
  lemma {:induction false} LastCountOfDailyRows(articles: map<nat, Article>, typeOfReport: string, lo: int, hi: int, d: int)
    requires lo <= d <= hi
    ensures LastCount(DailyRows(articles, typeOfReport, lo, hi), d) == CountOn(articles, typeOfReport, d)
    decreases hi - lo + 1
  {
    var c := CountOn(articles, typeOfReport, hi);
    var earlier := DailyRows(articles, typeOfReport, lo, hi - 1);
    if c > 0 {
      assert DailyRows(articles, typeOfReport, lo, hi) == earlier + [(hi, c)];
      assert (earlier + [(hi, c)])[..|earlier|] == earlier;
    }
    if d == hi {
      LastCountAbsent(earlier, d);
    } else {
      LastCountOfDailyRows(articles, typeOfReport, lo, hi - 1, d);
    }
  }

  /** No row of the day: the value stays 0. */
  lemma {:induction false} LastCountAbsent(rows: seq<(int, nat)>, d: int)
    requires forall i | 0 <= i < |rows| :: rows[i].0 != d
    ensures LastCount(rows, d) == 0
    decreases |rows|
  {
    if rows != [] {
      LastCountAbsent(rows[..|rows| - 1], d);
    }
  }

  /** `labels` are the days `lo..hi` ascending, each once, and `data` holds each day's count. */
  predicate IsDailySeries(labels: seq<int>, data: seq<nat>, articles: map<nat, Article>, typeOfReport: string, lo: int, hi: int) {
    && |labels| == |data| == (if hi >= lo then hi - lo + 1 else 0)
    && (forall i | 0 <= i < |labels| :: labels[i] == lo + i)
    && (forall i | 0 <= i < |data| :: data[i] == CountOn(articles, typeOfReport, lo + i))
  }

  /** The filled series over the query's rows is the per-day count. */
  lemma SeriesIsDailyCount(articles: map<nat, Article>, typeOfReport: string, lo: int, hi: int, labels: seq<int>, data: seq<nat>)
    requires |labels| == |data| == (if hi >= lo then hi - lo + 1 else 0)
    requires forall i | 0 <= i < |labels| :: labels[i] == lo + i
    requires forall i | 0 <= i < |data| :: data[i] == LastCount(DailyRows(articles, typeOfReport, lo, hi), labels[i])
    ensures IsDailySeries(labels, data, articles, typeOfReport, lo, hi)
  {
    forall i | 0 <= i < |data|
      ensures data[i] == CountOn(articles, typeOfReport, lo + i)
    {
      LastCountOfDailyRows(articles, typeOfReport, lo, hi, lo + i);
    }
  }

  /** `getLineData`. Its validation runs inside the catch-all, so a bad
      request answers 500 rather than 422. */
  method GetLineData(db: Database, r: LineRequest, cal: Calendar) returns (outcome: Outcome, labels: seq<int>, data: seq<nat>)
    requires db.Valid()
    ensures outcome == (if ValidLineRequest(r) then Ok else ServerError)
    ensures outcome == ServerError ==> labels == [] && data == []
    ensures outcome == Ok ==>
      IsDailySeries(labels, data, db.articles, r.typeOfReport.value,
                    Window(r.dateFilter, r.startDate, r.endDate, cal).0, Window(r.dateFilter, r.startDate, r.endDate, cal).1)
  {
    if !ValidLineRequest(r) {
      return ServerError, [], [];
    }
    var window := Window(r.dateFilter, r.startDate, r.endDate, cal);
    var rows := DailyRows(db.articles, r.typeOfReport.value, window.0, window.1);
    labels, data := FillSeries(window.0, window.1, rows);
    SeriesIsDailyCount(db.articles, r.typeOfReport.value, window.0, window.1, labels, data);
    outcome := Ok;
  }

  // -------------------------------------------------------------- showStats

  /** The five counters the cards show, in the order they are read. */
  datatype Counters = Counters(total: int, thisWeek: int, thisMonth: int, previousWeek: int, previousMonth: int)

  const TOTAL_REPORTS: string := "total_reports"
  const REPORTS_THIS_WEEK: string := "reports_this_week"
  const REPORTS_THIS_MONTH: string := "reports_this_month"
  const PREVIOUS_WEEK_COUNT: string := "previous_week_count"
  const PREVIOUS_MONTH_COUNT: string := "previous_month_count"

  /** The timestamp bounds of the four calendar windows. */
  datatype StatsWindows = StatsWindows(weekStart: int, weekEnd: int, monthStart: int, monthEnd: int,
                                       previousWeekStart: int, previousWeekEnd: int,
                                       previousMonthStart: int, previousMonthEnd: int)

  /** The articles created between two timestamps, inclusive. */
  function CountBetween(articles: map<nat, Article>, lo: int, hi: int): nat {
    |set k | k in articles && lo <= articles[k].createdAt <= hi|
  }

  /** What the five closures would count if they ran now. */
  function Counted(articles: map<nat, Article>, w: StatsWindows): Counters {
    Counters(|articles|,
             CountBetween(articles, w.weekStart, w.weekEnd),
             CountBetween(articles, w.monthStart, w.monthEnd),
             CountBetween(articles, w.previousWeekStart, w.previousWeekEnd),
             CountBetween(articles, w.previousMonthStart, w.previousMonthEnd))
  }

  /** The counters read, and the cache contents after the reads. */
  datatype Reading = Reading(value: Counters, entries: map<string, int>)

  /** The five `Cache::remember` reads in order. */
  function ReadCounters(entries: map<string, int>, counted: Counters): Reading {
    var r1 := Cache.RememberIn(entries, TOTAL_REPORTS, counted.total);
    var r2 := Cache.RememberIn(r1.entries, REPORTS_THIS_WEEK, counted.thisWeek);
    var r3 := Cache.RememberIn(r2.entries, REPORTS_THIS_MONTH, counted.thisMonth);
    var r4 := Cache.RememberIn(r3.entries, PREVIOUS_WEEK_COUNT, counted.previousWeek);
    var r5 := Cache.RememberIn(r4.entries, PREVIOUS_MONTH_COUNT, counted.previousMonth);
    Reading(Counters(r1.value, r2.value, r3.value, r4.value, r5.value), r5.entries)
  }

  /** The value read for one key: the stored one, else the counted one. */
  function Recall(entries: map<string, int>, key: string, counted: int): int {
    if key in entries then entries[key] else counted
  }

  /** Each counter is the cached value when its key is present, the freshly
      counted one otherwise; afterwards all five keys are cached. */
  lemma ReadCountersValues(entries: map<string, int>, counted: Counters)
    ensures var r := ReadCounters(entries, counted);
      && r.value == Counters(Recall(entries, TOTAL_REPORTS, counted.total),
                             Recall(entries, REPORTS_THIS_WEEK, counted.thisWeek),
                             Recall(entries, REPORTS_THIS_MONTH, counted.thisMonth),
                             Recall(entries, PREVIOUS_WEEK_COUNT, counted.previousWeek),
                             Recall(entries, PREVIOUS_MONTH_COUNT, counted.previousMonth))
      && r.entries.Keys == entries.Keys + {TOTAL_REPORTS, REPORTS_THIS_WEEK, REPORTS_THIS_MONTH, PREVIOUS_WEEK_COUNT, PREVIOUS_MONTH_COUNT}
      && (forall k | k in entries :: r.entries[k] == entries[k])
  {
  }

  /** A second read returns the first read's counters whatever the tables
      hold by then, until a key is forgotten. */
  lemma ReadCountersStable(entries: map<string, int>, first: Counters, later: Counters)
    ensures var r1 := ReadCounters(entries, first);
      ReadCounters(r1.entries, later) == r1
  {
    ReadCountersValues(entries, first);
  }

  /** After `store` evicts its three keys, the next read recounts the total,
      the week and the month, but still shows the cached previous-week and
      previous-month counts. */
  lemma StoreLeavesPreviousCountsCached(entries: map<string, int>, counted: Counters)
    requires PREVIOUS_WEEK_COUNT in entries && PREVIOUS_MONTH_COUNT in entries
    ensures var r := ReadCounters(entries - {TOTAL_REPORTS, REPORTS_THIS_WEEK, REPORTS_THIS_MONTH}, counted).value;
      && r.total == counted.total && r.thisWeek == counted.thisWeek && r.thisMonth == counted.thisMonth
      && r.previousWeek == entries[PREVIOUS_WEEK_COUNT] && r.previousMonth == entries[PREVIOUS_MONTH_COUNT]
  {
    ReadCountersValues(entries - {TOTAL_REPORTS, REPORTS_THIS_WEEK, REPORTS_THIS_MONTH}, counted);
  }

  /** `round($x, 1)`: to one decimal, halves away from zero. */
  function Round1(x: real): real {
    if x >= 0.0 then (x * 10.0 + 0.5).Floor as real / 10.0
    else -(((-x) * 10.0 + 0.5).Floor as real / 10.0)
  }

  /** The percentage change, 0 when there is nothing to compare with. */
  function ChangePercent(current: int, previous: int): (p: real)
    ensures previous <= 0 ==> p == 0.0
  {
    if previous > 0 then Round1(((current - previous) as real / previous as real) * 100.0) else 0.0
  }

  function Abs(x: int): nat { if x < 0 then -x else x }

  /** The trend as the cards compute it: from the rounded percentage. It is
      up whenever the count did not fall, but also after a fall small enough
      to round to zero. */
  function TrendAsWritten(current: int, previous: int): (t: string)
    ensures t == "up" <==> ChangePercent(current, previous) >= 0.0
    ensures current >= previous ==> t == "up"
    ensures t == "up" || t == "down"
  {
    var t := if ChangePercent(current, previous) >= 0.0 then "up" else "down";
    if previous > 0 then ChangePercentSign(current, previous); t else t
  }

  /** The trend the cards mean: up exactly when the count did not fall. */
  function Trend(current: int, previous: int): (t: string)
    ensures t == "up" <==> current >= previous
    ensures t == "up" || t == "down"
  {
    if current >= previous then "up" else "down"
  }

  /** Rounding keeps the sign of a change, except that a fall of under 0.05%
      rounds to zero. */
  lemma {:induction false} ChangePercentSign(current: int, previous: int)
    requires previous > 0
    ensures current >= previous ==> ChangePercent(current, previous) >= 0.0
    ensures ChangePercent(current, previous) > 0.0 ==> current > previous
  {
    var x := ((current - previous) as real / previous as real) * 100.0;
    if current >= previous {
      assert x >= 0.0;
    } else {
      assert x < 0.0;
    }
  }

  /** The written trend agrees with the intended one whenever the count did not fall. */
  lemma TrendAgreesMostly(current: int, previous: int)
    requires current >= previous
    ensures TrendAsWritten(current, previous) == Trend(current, previous) == "up"
  {
    if previous > 0 {
      ChangePercentSign(current, previous);
    }
  }

  /** From 2001 reports to 2000 the change is about -0.04998%, which rounds
      to 0.0, and the card shows an upward trend. */
  lemma {:induction false} TrendAsWrittenMissesSmallFall()
    ensures TrendAsWritten(2000, 2001) == "up"
    ensures Trend(2000, 2001) == "down"
  {
    var x := ((2000 - 2001) as real / 2001 as real) * 100.0;
    assert x == -100.0 / 2001.0;
    assert 0.0 <= (-x) * 10.0 + 0.5 < 1.0;
    assert ((-x) * 10.0 + 0.5).Floor == 0;
    assert ChangePercent(2000, 2001) == 0.0;
  }

  /** One statistics card. */
  datatype StatCard = StatCard(title: string, value: int, percent: real, trend: string, change: nat)

  /** The three cards. The total card carries no comparison. */
  function Cards(c: Counters): (cards: seq<StatCard>)
    ensures |cards| == 3 && cards[0].value == c.total && cards[0].trend == ""
    ensures cards[1].value == c.thisWeek && cards[2].value == c.thisMonth
    ensures cards[1].change == Abs(c.thisWeek - c.previousWeek) && cards[2].change == Abs(c.thisMonth - c.previousMonth)
    ensures c.previousWeek <= 0 ==> cards[1].percent == 0.0
    ensures c.previousMonth <= 0 ==> cards[2].percent == 0.0
    ensures cards[1].percent == ChangePercent(c.thisWeek, c.previousWeek)
    ensures cards[2].percent == ChangePercent(c.thisMonth, c.previousMonth)
    ensures cards[1].trend == "up" <==> cards[1].percent >= 0.0
    ensures cards[2].trend == "up" <==> cards[2].percent >= 0.0
    ensures c.thisWeek >= c.previousWeek ==> cards[1].trend == "up"
    ensures c.thisMonth >= c.previousMonth ==> cards[2].trend == "up"
    ensures cards[1].trend in {"up", "down"} && cards[2].trend in {"up", "down"}
  {
    [ StatCard("Total Reports", c.total, 0.0, "", 0),
      StatCard("Reports This Week", c.thisWeek, ChangePercent(c.thisWeek, c.previousWeek),
               TrendAsWritten(c.thisWeek, c.previousWeek), Abs(c.thisWeek - c.previousWeek)),
      StatCard("Reports This Month", c.thisMonth, ChangePercent(c.thisMonth, c.previousMonth),
               TrendAsWritten(c.thisMonth, c.previousMonth), Abs(c.thisMonth - c.previousMonth)) ]
  }

  /** `showStats`: the five counters through the cache, then the cards. */
  method ShowStats(db: Database, cache: Cache.Store<int>, w: StatsWindows) returns (cards: seq<StatCard>)
    requires db.Valid()
    modifies cache
    ensures var r := ReadCounters(old(cache.entries), Counted(db.articles, w));
      cache.entries == r.entries && cards == Cards(r.value)
  {
    var counted := Counted(db.articles, w);
    var total := cache.Remember(TOTAL_REPORTS, counted.total);
    var thisWeek := cache.Remember(REPORTS_THIS_WEEK, counted.thisWeek);
    var thisMonth := cache.Remember(REPORTS_THIS_MONTH, counted.thisMonth);
    var previousWeek := cache.Remember(PREVIOUS_WEEK_COUNT, counted.previousWeek);
    var previousMonth := cache.Remember(PREVIOUS_MONTH_COUNT, counted.previousMonth);
    cards := Cards(Counters(total, thisWeek, thisMonth, previousWeek, previousMonth));
  }
}
