/**
 * The two five-day forecast summaries of the demo: the 3-hourly readings
 * of an OpenWeatherMap forecast grouped by calendar date, with the mean
 * temperature and the first weather description of each date.
 * `WeatherDemo._get_weekly_forecast` keeps the dates in the order they
 * first appear; `WebSearchToolsDemo._get_weekly_forecast` sorts them and
 * keeps the first five.
 */
module Forecast {
  import opened PyText

  /** One entry of the response's `list`: `dt`, `dt_txt`, `main.temp` and `weather[0].description`. */
  datatype ForecastItem = ForecastItem(dt: int, dtTxt: string, temp: real, weather: string)

  /**
   * The forecast request: it failed (network, HTTP status or JSON error), or
   * it returned a body whose `list` key is present or missing.
   */
  datatype ForecastResponse = RequestFailed | Body(list: Option<seq<ForecastItem>>)

  /** A reading once its date is known. */
  datatype Reading = Reading(date: string, temp: real, weather: string)

  /** One entry of the result: `{"date", "temp_avg", "weather"}`. */
  datatype DailyForecast = DailyForecast(date: string, tempAvg: real, weather: string)

  /** `dt_txt.split(" ")[0]`: the text before the first space, or all of it. */
  function DatePart(dtTxt: string): (date: string)
    ensures StartsWith(dtTxt, date)
    ensures ' ' !in date
    ensures ' ' !in dtTxt ==> date == dtTxt
  {
    var k := Find(dtTxt, " ", 0);
    if k == -1 then
      forall j | 0 <= j < |dtTxt| ensures dtTxt[j] != ' ' {
        assert dtTxt[j..j + 1] == " " ==> OccursAt(dtTxt, " ", j);
      }
      assert dtTxt[0..|dtTxt|] == dtTxt;
      dtTxt
    else
      forall j | 0 <= j < k ensures dtTxt[j] != ' ' {
        assert dtTxt[j..j + 1] == " " ==> OccursAt(dtTxt, " ", j);
      }
      assert dtTxt[0..k] == dtTxt[..k];
      assert dtTxt[k..k + 1] == " " && dtTxt[k] == ' ';
      dtTxt[..k]
  }

  /** The distinct dates of the readings, in the order they first appear (the keys of the `daily` dict). */
  function Dates(rs: seq<Reading>): (ds: seq<string>)
    ensures NoDuplicates(ds)
  {
    if rs == [] then []
    else
      var ds := Dates(rs[..|rs| - 1]);
      var d := rs[|rs| - 1].date;
      if d in ds then ds else ds + [d]
  }

  /** The temperatures recorded for `date`, in reading order. */
  function TempsOn(rs: seq<Reading>, date: string): seq<real> {
    if rs == [] then []
    else TempsOn(rs[..|rs| - 1], date) + (if rs[|rs| - 1].date == date then [rs[|rs| - 1].temp] else [])
  }

  /** The weather of the first reading for `date`, if there is one. */
  function FirstWeather(rs: seq<Reading>, date: string): Option<string> {
    if rs == [] then None
    else
      var w := FirstWeather(rs[..|rs| - 1], date);
      if w.None? && rs[|rs| - 1].date == date then Some(rs[|rs| - 1].weather) else w
  }

  function Sum(xs: seq<real>): real {
    if xs == [] then 0.0 else Sum(xs[..|xs| - 1]) + xs[|xs| - 1]
  }

  /** The mean of the temperatures, 0 for none; the rounding to one decimal is not modelled. */
  function Mean(xs: seq<real>): real {
    if xs == [] then 0.0 else Sum(xs) / (|xs| as real)
  }

  /** The summary entry of one date. */
  function Summary(rs: seq<Reading>, date: string): DailyForecast {
    var w := FirstWeather(rs, date);
    DailyForecast(date, Mean(TempsOn(rs, date)), if w.Some? then w.value else "")
  }

  /** The summary entries of the given dates, in the given order. */
  function Summaries(rs: seq<Reading>, dates: seq<string>): (r: seq<DailyForecast>)
    ensures |r| == |dates|
    ensures forall i :: 0 <= i < |dates| ==> r[i] == Summary(rs, dates[i])
  {
    if dates == [] then [] else Summaries(rs, dates[..|dates| - 1]) + [Summary(rs, dates[|dates| - 1])]
  }

  /** No value occurs twice. */
  predicate NoDuplicates(s: seq<string>) {
    forall i, j :: 0 <= i < j < |s| ==> s[i] != s[j]
  }

  /** The index of the first reading on `date`. */
  ghost predicate FirstOn(rs: seq<Reading>, date: string, k: int) {
    0 <= k < |rs| && rs[k].date == date && forall j :: 0 <= j < k ==> rs[j].date != date
  }

  /**
   * The dates are exactly the dates of the readings, each once, in the order
   * of their first readings.
   */
  lemma {:induction false} DatesSpec(rs: seq<Reading>)
    ensures forall d :: d in Dates(rs) <==> exists k :: 0 <= k < |rs| && rs[k].date == d
    ensures forall i, j, ki, kj :: 0 <= i < j < |Dates(rs)| && FirstOn(rs, Dates(rs)[i], ki) && FirstOn(rs, Dates(rs)[j], kj) ==> ki < kj
  {
    if rs != [] {
      var init := rs[..|rs| - 1];
      DatesSpec(init);
      var ds := Dates(init);
      var last := rs[|rs| - 1];
      forall d ensures d in Dates(rs) <==> exists k :: 0 <= k < |rs| && rs[k].date == d {
        if d in Dates(rs) && d != last.date {
          assert d in ds;
          var k :| 0 <= k < |init| && init[k].date == d;
          assert rs[k].date == d;
        }
        if d == last.date {
          assert rs[|rs| - 1].date == d;
        }
        if exists k :: 0 <= k < |rs| && rs[k].date == d {
          var k :| 0 <= k < |rs| && rs[k].date == d;
          if k < |init| {
            assert init[k].date == d;
          }
        }
      }
      forall i, j, ki, kj | 0 <= i < j < |Dates(rs)| && FirstOn(rs, Dates(rs)[i], ki) && FirstOn(rs, Dates(rs)[j], kj)
        ensures ki < kj
      {
        FirstOnInit(rs, Dates(rs)[i], ki);
        if j < |ds| {
          FirstOnInit(rs, Dates(rs)[j], kj);
        } else {
          assert Dates(rs)[j] == last.date && last.date !in ds;
          // no earlier reading is on the last reading's date, so kj is the last index
          assert forall k :: 0 <= k < |init| ==> rs[k].date != last.date by {
            forall k | 0 <= k < |init| ensures rs[k].date != last.date {
              assert init[k] == rs[k];
            }
          }
        }
      }
    }
  }

  /** A first reading on a date that already occurred before the last reading is a first reading of the shorter list. */
  lemma FirstOnInit(rs: seq<Reading>, date: string, k: int)
    requires rs != [] && FirstOn(rs, date, k)
    requires date in Dates(rs[..|rs| - 1]) || k < |rs| - 1
    ensures k < |rs| - 1 && FirstOn(rs[..|rs| - 1], date, k)
  {
    var init := rs[..|rs| - 1];
    if k == |rs| - 1 {
      DatesMembers(init, date);
      assert false;
    }
  }

  /** A date of the list is the date of one of its readings. */
  lemma {:induction false} DatesMembers(rs: seq<Reading>, date: string)
    requires date in Dates(rs)
    ensures exists m :: 0 <= m < |rs| && rs[m].date == date
  {
    var init := rs[..|rs| - 1];
    if date != rs[|rs| - 1].date {
      DatesMembers(init, date);
      var m :| 0 <= m < |init| && init[m].date == date;
      assert rs[m].date == date;
    }
  }

  /**
   * The weather recorded for a date is that of its first reading, and a
   * date of the list has at least one temperature.
   */
  lemma {:induction false} FirstWeatherSpec(rs: seq<Reading>, date: string, k: int)
    requires FirstOn(rs, date, k)
    ensures FirstWeather(rs, date) == Some(rs[k].weather)
    ensures TempsOn(rs, date) != []
  {
    var init := rs[..|rs| - 1];
    if k < |rs| - 1 {
      assert FirstOn(init, date, k);
      FirstWeatherSpec(init, date, k);
    } else {
      NoReadingNoWeather(init, date);
    }
  }

  /** Without a reading on `date` there is no weather and no temperature for it. */
  lemma {:induction false} NoReadingNoWeather(rs: seq<Reading>, date: string)
    requires forall j :: 0 <= j < |rs| ==> rs[j].date != date
    ensures FirstWeather(rs, date) == None && TempsOn(rs, date) == []
  {
    if rs != [] {
      NoReadingNoWeather(rs[..|rs| - 1], date);
    }
  }

  /** The per-date accumulator of the loops: the temperatures and the first weather. */
  datatype DayAcc = DayAcc(temps: seq<real>, weather: string)

  /** `order` and `daily` hold the grouping of the readings `p`: the key order, the keys and the contents. */
  ghost predicate Grouped(p: seq<Reading>, order: seq<string>, daily: map<string, DayAcc>) {
    && order == Dates(p)
    && (forall d :: d in daily <==> d in order)
    && (forall d :: d in daily ==>
      FirstWeather(p, d) == Some(daily[d].weather) && daily[d].temps == TempsOn(p, d))
  }

  /**
   * Groups the readings by date the way both loops fill their dict: the
   * key order of the dict and its contents.
   */
  method GroupByDate(rs: seq<Reading>) returns (order: seq<string>, daily: map<string, DayAcc>)
    ensures order == Dates(rs)
    ensures forall d :: d in daily <==> d in order
    ensures forall d :: d in daily ==>
      FirstWeather(rs, d) == Some(daily[d].weather) && daily[d].temps == TempsOn(rs, d)
  {
    order, daily := [], map[];
    var i := 0;
    while i < |rs|
      invariant 0 <= i <= |rs|
      invariant Grouped(rs[..i], order, daily)
    {
      var r := rs[i];
      ghost var order0, daily0 := order, daily;
      if r.date !in daily {
        daily := daily[r.date := DayAcc([], r.weather)];
        order := order + [r.date];
      }
      daily := daily[r.date := DayAcc(daily[r.date].temps + [r.temp], daily[r.date].weather)];
      assert r.date !in daily0 ==> daily[r.date].temps == [r.temp];
      GroupedStep(rs[..i], r, order0, daily0, order, daily);
      assert rs[..i + 1] == rs[..i] + [r];
      i := i + 1;
    }
    assert rs[..i] == rs;
  }

  /** One more reading taken in the way the loop body does keeps the grouping. */
  lemma GroupedStep(p: seq<Reading>, r: Reading, order0: seq<string>, daily0: map<string, DayAcc>,
                    order: seq<string>, daily: map<string, DayAcc>)
    requires Grouped(p, order0, daily0)
    requires order == if r.date in daily0 then order0 else order0 + [r.date]
    requires daily == daily0[r.date := if r.date in daily0
      then DayAcc(daily0[r.date].temps + [r.temp], daily0[r.date].weather)
      else DayAcc([r.temp], r.weather)]
    ensures Grouped(p + [r], order, daily)
  {
    AppendStep(p, r);
    if r.date !in daily0 {
      NoWeatherOutsideDates(p, r.date);
    }
    forall d | d in daily
      ensures FirstWeather(p + [r], d) == Some(daily[d].weather) && daily[d].temps == TempsOn(p + [r], d)
    {
      if d != r.date {
        assert daily[d] == daily0[d];
      }
    }
  }

  /** How the dates, temperatures and first weathers change when one more reading is taken in. */
  lemma AppendStep(p: seq<Reading>, r: Reading)
    ensures Dates(p + [r]) == (if r.date in Dates(p) then Dates(p) else Dates(p) + [r.date])
    ensures forall d :: TempsOn(p + [r], d) == TempsOn(p, d) + (if r.date == d then [r.temp] else [])
    ensures forall d ::
      FirstWeather(p + [r], d) == if FirstWeather(p, d).None? && r.date == d then Some(r.weather) else FirstWeather(p, d)
  {
    assert (p + [r])[..|p|] == p;
  }

  /** A date not among the dates has no weather and no temperature. */
  lemma NoWeatherOutsideDates(rs: seq<Reading>, date: string)
    requires date !in Dates(rs)
    ensures FirstWeather(rs, date) == None && TempsOn(rs, date) == []
  {
    DatesSpec(rs);
    NoReadingNoWeather(rs, date);
  }

  /** The readings of `WeatherDemo`: the date is the part of `dt_txt` before the space. */
  function ReadingsByText(items: seq<ForecastItem>): (rs: seq<Reading>)
    ensures |rs| == |items|
    ensures forall i :: 0 <= i < |items| ==>
      rs[i] == Reading(DatePart(items[i].dtTxt), items[i].temp, items[i].weather)
  {
    if items == [] then []
    else ReadingsByText(items[..|items| - 1]) + [Reading(DatePart(items[|items| - 1].dtTxt), items[|items| - 1].temp, items[|items| - 1].weather)]
  }

  /** The readings of `WebSearchToolsDemo`: the date is the local calendar date of `dt`, given as `dayOf`. */
  function ReadingsByTimestamp(items: seq<ForecastItem>, dayOf: int -> string): (rs: seq<Reading>)
    ensures |rs| == |items|
    ensures forall i :: 0 <= i < |items| ==> rs[i] == Reading(dayOf(items[i].dt), items[i].temp, items[i].weather)
  {
    if items == [] then []
    else ReadingsByTimestamp(items[..|items| - 1], dayOf) + [Reading(dayOf(items[|items| - 1].dt), items[|items| - 1].temp, items[|items| - 1].weather)]
  }

  /** The summary entries for the dates of a grouping, in the given order. */
  method Summarize(dates: seq<string>, daily: map<string, DayAcc>, ghost rs: seq<Reading>) returns (result: seq<DailyForecast>)
    requires forall d :: d in dates ==> d in daily
    requires forall d :: d in daily ==> FirstWeather(rs, d) == Some(daily[d].weather) && daily[d].temps == TempsOn(rs, d)
    ensures result == Summaries(rs, dates)
  {
    result := [];
    var i := 0;
    while i < |dates|
      invariant 0 <= i <= |dates|
      invariant result == Summaries(rs, dates[..i])
    {
      var info := daily[dates[i]];
      result := result + [DailyForecast(dates[i], Mean(info.temps), info.weather)];
      assert dates[..i + 1][..i] == dates[..i];
      i := i + 1;
    }
    assert dates[..i] == dates;
  }

  /**
   * `WeatherDemo._get_weekly_forecast`: nothing without an API key or when
   * the request or the body fails; otherwise one entry per date in order of
   * first appearance.
   */
  method WeatherDemoWeeklyForecast(apiKey: string, response: ForecastResponse) returns (result: seq<DailyForecast>)
    ensures apiKey == [] || response.RequestFailed? || (response.Body? && response.list.None?) ==> result == []
    ensures apiKey != [] && response.Body? && response.list.Some? ==>
      var rs := ReadingsByText(response.list.value);
      result == FirstSeenSummary(rs)
  {
    if apiKey == [] {
      return [];
    }
    match response
    case RequestFailed =>
      result := [];
    case Body(None) =>
      result := [];
    case Body(Some(items)) =>
      var rs := ReadingsByText(items);
      var order, daily := GroupByDate(rs);
      result := Summarize(order, daily, rs);
  }

  /** `sorted` on distinct strings, as an insertion sort. */
  function InsertString(x: string, s: seq<string>): (r: seq<string>)
    requires Ascending(s) && x !in s
    ensures multiset(r) == multiset(s) + multiset{x}
    ensures Ascending(r)
  {
    if s == [] then [x]
    else if !StrLess(s[0], x) then
      InsertBeforeAll(x, s);
      [x] + s
    else
      var rest := InsertString(x, s[1..]);
      HeadBelowInserted(x, s, rest);
      assert s == [s[0]] + s[1..];
      [s[0]] + rest
  }

  /** A string below every element of an ascending sequence keeps it ascending in front. */
  lemma ConsAscending(h: string, rest: seq<string>)
    requires Ascending(rest)
    requires forall j :: 0 <= j < |rest| ==> StrLess(h, rest[j])
    ensures Ascending([h] + rest)
  {
    forall i, j | 0 <= i < j < |[h] + rest| ensures StrLess(([h] + rest)[i], ([h] + rest)[j]) {
      assert ([h] + rest)[j] == rest[j - 1];
      if i > 0 {
        assert ([h] + rest)[i] == rest[i - 1];
      }
    }
  }

  /** A new string not above the first of an ascending sequence goes in front. */
  lemma InsertBeforeAll(x: string, s: seq<string>)
    requires s != [] && Ascending(s) && x !in s && !StrLess(s[0], x)
    ensures Ascending([x] + s)
  {
    StrLessTotal(x, s[0]);
    forall j | 0 <= j < |s| ensures StrLess(x, s[j]) {
      if j > 0 {
        StrLessTransitive(x, s[0], s[j]);
      }
    }
    ConsAscending(x, s);
  }

  /** The first of an ascending sequence stays below everything once a larger string is inserted after it. */
  lemma HeadBelowInserted(x: string, s: seq<string>, rest: seq<string>)
    requires s != [] && Ascending(s) && StrLess(s[0], x)
    requires Ascending(rest) && multiset(rest) == multiset(s[1..]) + multiset{x}
    ensures Ascending([s[0]] + rest)
  {
    forall j | 0 <= j < |rest| ensures StrLess(s[0], rest[j]) {
      assert rest[j] in multiset(rest);
      if rest[j] != x {
        assert rest[j] in multiset(s[1..]);
        var k :| 0 <= k < |s[1..]| && s[1..][k] == rest[j];
        assert s[k + 1] == rest[j];
      }
    }
    ConsAscending(s[0], rest);
  }

  /** Strictly ascending in string order. */
  predicate Ascending(s: seq<string>) {
    forall i, j :: 0 <= i < j < |s| ==> StrLess(s[i], s[j])
  }

  /** In a sequence without duplicates the first element does not recur, and the rest has none either. */
  lemma HeadNotInRest(s: seq<string>)
    requires s != [] && NoDuplicates(s)
    ensures s[0] !in multiset(s[1..])
    ensures NoDuplicates(s[1..])
    ensures multiset(s) == multiset(s[1..]) + multiset{s[0]}
  {
    var t := s[1..];
    forall k | 0 <= k < |t| ensures t[k] != s[0] {
      assert t[k] == s[k + 1];
    }
    assert s[0] !in t;
    forall i, j | 0 <= i < j < |t| ensures t[i] != t[j] {
      assert t[i] == s[i + 1] && t[j] == s[j + 1];
    }
    assert s == [s[0]] + t;
  }

  /** `sorted(keys)` for distinct keys: the same keys in ascending order. */
  function SortStrings(s: seq<string>): (r: seq<string>)
    requires NoDuplicates(s)
    ensures multiset(r) == multiset(s)
    ensures Ascending(r)
  {
    if s == [] then []
    else
      HeadNotInRest(s);
      var rest := SortStrings(s[1..]);
      assert s[0] !in multiset(rest);
      InsertString(s[0], rest)
  }

  /** The number of days `WebSearchToolsDemo` reports at most. */
  const ForecastDays: nat := 5

  /** The summary `WeatherDemo` reports: one entry per date, in order of first appearance. */
  function FirstSeenSummary(rs: seq<Reading>): seq<DailyForecast> {
    Summaries(rs, Dates(rs))
  }

  /** The summary `WebSearchToolsDemo` reports: one entry per date in ascending order, the first five. */
  function SortedSummary(rs: seq<Reading>): seq<DailyForecast> {
    Take(Summaries(rs, SortStrings(Dates(rs))), ForecastDays)
  }

  /**
   * `WebSearchToolsDemo._get_weekly_forecast`: nothing without an API key or
   * when the request fails; otherwise one entry per date in ascending order,
   * the first five only. A missing `list` counts as an empty one.
   */
  method WebSearchWeeklyForecast(apiKey: string, response: ForecastResponse, dayOf: int -> string)
    returns (result: seq<DailyForecast>)
    ensures apiKey == [] || response.RequestFailed? ==> result == []
    ensures apiKey != [] && response.Body? ==>
      var rs := ReadingsByTimestamp(if response.list.Some? then response.list.value else [], dayOf);
      result == SortedSummary(rs)
  {
    if apiKey == [] {
      return [];
    }
    match response
    case RequestFailed =>
      result := [];
    case Body(list) =>
      var items := if list.Some? then list.value else [];
      var rs := ReadingsByTimestamp(items, dayOf);
      var order, daily := GroupByDate(rs);
      DatesSpec(rs);
      var sortedDates := SortStrings(order);
      forall d | d in sortedDates ensures d in daily {
        assert d in multiset(sortedDates);
      }
      var forecast := Summarize(sortedDates, daily, rs);
      result := Take(forecast, ForecastDays);
  }

  /**
   * What the sorted summary promises: at most five entries, dates strictly
   * ascending (so distinct), and no date of the readings below the last one
   * reported left out.
   */
  lemma WebSearchForecastOrder(rs: seq<Reading>)
    ensures var r := SortedSummary(rs);
      && |r| == (if |Dates(rs)| < ForecastDays then |Dates(rs)| else ForecastDays)
      && (forall i, j :: 0 <= i < j < |r| ==> StrLess(r[i].date, r[j].date))
      && (forall i, d :: 0 <= i < |r| && d in Dates(rs) && StrLess(d, r[i].date) ==> exists j :: 0 <= j < i && r[j].date == d)
  {
    DatesSpec(rs);
    SummaryPrefix(rs, SortStrings(Dates(rs)), SortedSummary(rs));
    AscendingPrefixOrder(SortStrings(Dates(rs)), Dates(rs), SortedSummary(rs));
  }

  /** The first five summaries of some dates are entries for the first five of those dates. */
  lemma SummaryPrefix(rs: seq<Reading>, dates: seq<string>, r: seq<DailyForecast>)
    requires r == Take(Summaries(rs, dates), ForecastDays)
    ensures |r| == (if |dates| < ForecastDays then |dates| else ForecastDays)
    ensures forall i :: 0 <= i < |r| ==> r[i].date == dates[i]
  {
    var all := Summaries(rs, dates);
    assert forall i :: 0 <= i < |r| ==> r[i] == all[i];
  }

  /**
   * Entries whose dates are the first of an ascending arrangement of
   * `dates` are ascending, as many as the dates up to five, and skip no date
   * below the last one.
   */
  lemma AscendingPrefixOrder(sorted: seq<string>, dates: seq<string>, r: seq<DailyForecast>)
    requires Ascending(sorted) && multiset(sorted) == multiset(dates)
    requires |r| == (if |sorted| < ForecastDays then |sorted| else ForecastDays)
    requires forall i :: 0 <= i < |r| ==> r[i].date == sorted[i]
    ensures |r| == (if |dates| < ForecastDays then |dates| else ForecastDays)
    ensures forall i, j :: 0 <= i < j < |r| ==> StrLess(r[i].date, r[j].date)
    ensures forall i, d :: 0 <= i < |r| && d in dates && StrLess(d, r[i].date) ==> exists j :: 0 <= j < i && r[j].date == d
  {
    assert |sorted| == |dates| by {
      assert |multiset(sorted)| == |multiset(dates)|;
    }
    forall i, d | 0 <= i < |r| && d in dates && StrLess(d, r[i].date)
      ensures exists j :: 0 <= j < i && r[j].date == d
    {
      assert d in multiset(sorted);
      var j :| 0 <= j < |sorted| && sorted[j] == d;
      if j == i {
        StrLessIrreflexive(d);
      } else if j > i {
        StrLessTransitive(sorted[i], d, sorted[i]);
        StrLessIrreflexive(sorted[i]);
      }
      assert r[j].date == d;
    }
  }

  /** Every entry the sorted summary reports is a date of the readings with the weather of its first reading. */
  lemma WebSearchForecastEntries(rs: seq<Reading>)
    ensures var r := SortedSummary(rs);
      forall i :: 0 <= i < |r| ==> exists k :: FirstOn(rs, r[i].date, k) && r[i].weather == rs[k].weather
  {
    var r := SortedSummary(rs);
    forall i | 0 <= i < |r| ensures exists k :: FirstOn(rs, r[i].date, k) && r[i].weather == rs[k].weather {
      var k := SortedSummaryEntry(rs, i);
    }
  }

  /** The `i`-th entry of the sorted summary and the first reading of its date. */
  lemma SortedSummaryEntry(rs: seq<Reading>, i: int) returns (k: int)
    requires 0 <= i < |SortedSummary(rs)|
    ensures FirstOn(rs, SortedSummary(rs)[i].date, k) && SortedSummary(rs)[i].weather == rs[k].weather
  {
    var sorted := SortStrings(Dates(rs));
    var all := Summaries(rs, sorted);
    assert SortedSummary(rs)[i] == all[i] == Summary(rs, sorted[i]);
    assert sorted[i] in multiset(Dates(rs));
    k := SummaryOfDate(rs, sorted[i]);
  }

  /** The summary of a date of the readings carries the weather of that date's first reading and at least one temperature. */
  lemma SummaryOfDate(rs: seq<Reading>, date: string) returns (k: int)
    requires date in Dates(rs)
    ensures FirstOn(rs, date, k) && Summary(rs, date).weather == rs[k].weather
    ensures TempsOn(rs, date) != []
  {
    DatesMembers(rs, date);
    var m :| 0 <= m < |rs| && rs[m].date == date;
    k := FirstIndex(rs, date, m);
    FirstWeatherSpec(rs, date, k);
  }

  /** The first reading on a date that has a reading at `m`. */
  lemma {:induction false} FirstIndex(rs: seq<Reading>, date: string, m: int) returns (k: int)
    requires 0 <= m < |rs| && rs[m].date == date
    ensures FirstOn(rs, date, k) && k <= m
    decreases m
  {
    if exists j :: 0 <= j < m && rs[j].date == date {
      var j :| 0 <= j < m && rs[j].date == date;
      k := FirstIndex(rs, date, j);
    } else {
      k := m;
    }
  }

  /**
   * What the first-appearance summary promises about its dates: every
   * reading's date is reported, no date twice, in the order of the dates'
   * first readings.
   */
  lemma WeatherDemoForecastDates(rs: seq<Reading>)
    ensures var r := FirstSeenSummary(rs);
      && (forall k :: 0 <= k < |rs| ==> exists i :: 0 <= i < |r| && r[i].date == rs[k].date)
      && (forall i, j :: 0 <= i < j < |r| ==> r[i].date != r[j].date)
      && (forall i, j, ki, kj :: 0 <= i < j < |r| && FirstOn(rs, r[i].date, ki) && FirstOn(rs, r[j].date, kj) ==> ki < kj)
  {
    DatesSpec(rs);
    var ds := Dates(rs);
    var r := FirstSeenSummary(rs);
    assert forall i :: 0 <= i < |r| ==> r[i].date == ds[i];
    forall k | 0 <= k < |rs| ensures exists i :: 0 <= i < |r| && r[i].date == rs[k].date {
      assert rs[k].date in ds;
      var i :| 0 <= i < |ds| && ds[i] == rs[k].date;
      assert r[i].date == rs[k].date;
    }
  }

  /**
   * What the first-appearance summary promises about each entry: its date
   * has a first reading whose weather it carries, and a mean over at least
   * one temperature.
   */
  lemma WeatherDemoForecastEntries(rs: seq<Reading>)
    ensures var r := FirstSeenSummary(rs);
      forall i :: 0 <= i < |r| ==>
        (exists k :: FirstOn(rs, r[i].date, k) && r[i].weather == rs[k].weather) && TempsOn(rs, r[i].date) != []
  {
    var ds := Dates(rs);
    var r := FirstSeenSummary(rs);
    forall i | 0 <= i < |r|
      ensures (exists k :: FirstOn(rs, r[i].date, k) && r[i].weather == rs[k].weather) && TempsOn(rs, r[i].date) != []
    {
      assert r[i] == Summary(rs, ds[i]);
      var k := SummaryOfDate(rs, ds[i]);
      assert FirstOn(rs, r[i].date, k) && r[i].weather == rs[k].weather;
    }
  }
}
