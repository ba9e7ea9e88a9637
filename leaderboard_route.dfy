/**
 * The leaderboard endpoint: it maps the `period` query parameter to one of
 * four database views and returns at most 50 rows of it.  A failed query
 * becomes a 500.
 */
module LeaderboardRoute {
  import opened Wrappers

  const DailyView: string := "leaderboard_daily"
  const WeeklyView: string := "leaderboard_weekly"
  const MonthlyView: string := "leaderboard_monthly"
  const AllTimeView: string := "leaderboard_all_time"

  /** The `.limit(50)` of the query. */
  const RowLimit: nat := 50

  /** One row of a leaderboard view. */
  datatype Row = Row(walletAddress: string, score: int)

  datatype Response = Data(rows: seq<Row>) | ServerError(error: string)

  /**
   * `searchParams.get('period') || 'daily'`, then the view name: `daily` by
   * default, replaced by the weekly, monthly or all-time view when the period
   * names one of them exactly.
   */
  method ViewFor(period: Option<string>) returns (viewName: string)
    ensures viewName in {DailyView, WeeklyView, MonthlyView, AllTimeView}
    ensures period == Some("weekly") <==> viewName == WeeklyView
    ensures period == Some("monthly") <==> viewName == MonthlyView
    ensures period == Some("all_time") <==> viewName == AllTimeView
    ensures viewName == DailyView <==> period !in {Some("weekly"), Some("monthly"), Some("all_time")}
  {
    var p := if period.None? || period.value == "" then "daily" else period.value;
    viewName := DailyView;
    if p == "weekly" {
      viewName := WeeklyView;
    }
    if p == "monthly" {
      viewName := MonthlyView;
    }
    if p == "all_time" {
      viewName := AllTimeView;
    }
  }

  /**
   * The GET handler.  `views` holds each view's rows in the order the
   * database returns them; `fails` says whether the query errs.  A view
   * missing from the database is an error too.
   */
  method Get(period: Option<string>, views: map<string, seq<Row>>, fails: bool) returns (resp: Response)
    ensures resp.ServerError? <==> fails || !exists v :: v in views && IsViewOf(period, v)
    ensures resp.ServerError? ==> resp.error == "Internal Server Error"
    ensures resp.Data? ==> exists v :: v in views && IsViewOf(period, v) && resp.rows == Limited(views[v])
  {
    var viewName := ViewFor(period);
    assert IsViewOf(period, viewName);
    if fails || viewName !in views {
      return ServerError("Internal Server Error");
    }
    return Data(Limited(views[viewName]));
  }

  /** The view a period selects. */
  predicate IsViewOf(period: Option<string>, v: string)
  {
    if period == Some("weekly") then v == WeeklyView
    else if period == Some("monthly") then v == MonthlyView
    else if period == Some("all_time") then v == AllTimeView
    else v == DailyView
  }

  /** The first `RowLimit` rows, or all of them when there are fewer. */
  function Limited(rows: seq<Row>): (r: seq<Row>)
    ensures |r| <= RowLimit && |r| <= |rows| && r == rows[..|r|]
    ensures |r| == if |rows| <= RowLimit then |rows| else RowLimit
  {
    if |rows| <= RowLimit then rows else rows[..RowLimit]
  }

  /** A missing or empty period reads the daily view. */
  lemma DefaultIsDaily()
    ensures IsViewOf(None, DailyView) && IsViewOf(Some(""), DailyView)
  {
  }

  /** A period the endpoint does not know, `yearly` for one, also reads the daily view. */
  lemma UnknownPeriodIsDaily(p: string)
    requires p !in {"weekly", "monthly", "all_time"}
    ensures IsViewOf(Some(p), DailyView)
  {
  }
}
