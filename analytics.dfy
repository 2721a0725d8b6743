/** app/routers/analytics.py: the per-project summary, the per-project click
    listing and the dashboard. All three only read the store; the GROUP BY,
    ORDER BY and LIMIT clauses are the Query module's operators. */
module Analytics {
  import opened Wrappers
  import Query
  import opened Store

  // ---------------------------------------------------------------- counting

  /** `sum(1 for c in clicks if c.platform == name)`. */
  function CountPlatform(clicks: seq<Click>, name: string): (n: nat)
    ensures n == multiset(PlatformsOf(clicks))[name]
  {
    if clicks == [] then 0
    else
      var pre := clicks[..|clicks| - 1];
      assert PlatformsOf(clicks) == PlatformsOf(pre) + [clicks[|clicks| - 1].platform];
      CountPlatform(pre, name) + (if clicks[|clicks| - 1].platform == name then 1 else 0)
  }

  /** The three platform names a click can be recorded with. */
  const PlatformNames: set<string> := {"ios", "android", "other"}

  /** The three per-platform counts never exceed the total, and add up to it
      when every click carries one of the three names (as every click the
      redirect records does). */
  lemma {:induction false} PlatformCountsBounded(clicks: seq<Click>)
    ensures CountPlatform(clicks, "ios") + CountPlatform(clicks, "android") + CountPlatform(clicks, "other") <= |clicks|
    ensures (forall c | c in clicks :: c.platform in PlatformNames) ==>
      CountPlatform(clicks, "ios") + CountPlatform(clicks, "android") + CountPlatform(clicks, "other") == |clicks|
  {
    if clicks != [] {
      PlatformCountsBounded(clicks[..|clicks| - 1]);
    }
  }

  /** The column values the GROUP BY clauses group on. */
  function Countries(clicks: seq<Click>): (r: seq<string>)
    ensures |r| == |clicks| && forall i | 0 <= i < |r| :: r[i] == clicks[i].country
  {
    seq(|clicks|, i requires 0 <= i < |clicks| => clicks[i].country)
  }

  function PlatformsOf(clicks: seq<Click>): (r: seq<string>)
    ensures |r| == |clicks| && forall i | 0 <= i < |r| :: r[i] == clicks[i].platform
  {
    seq(|clicks|, i requires 0 <= i < |clicks| => clicks[i].platform)
  }

  function ProjectIdsOf(clicks: seq<Click>): (r: seq<int>)
    ensures |r| == |clicks| && forall i | 0 <= i < |r| :: r[i] == clicks[i].projectId
  {
    seq(|clicks|, i requires 0 <= i < |clicks| => clicks[i].projectId)
  }

  // ---------------------------------------------------------------- top countries

  /** The number of rows the top-countries query keeps. */
  const TopCountryLimit: nat := 5

  /** `group_by(Click.country).order_by(count desc).limit(5)`. */
  function TopCountries(clicks: seq<Click>): (top: seq<Query.Group<string>>)
    ensures |top| <= TopCountryLimit
    ensures top == [] <==> clicks == []
  {
    Query.TopGroups(Countries(clicks), TopCountryLimit)
  }

  /** At most five rows, in non-increasing click count, each with the true
      number of clicks from its country; a country left out has no more clicks
      than any country shown, and is only left out when five are shown. */
  lemma TopCountriesAreTop(clicks: seq<Click>)
    ensures var top := TopCountries(clicks);
      && |top| <= TopCountryLimit
      && Query.SortedDesc(top, Query.CountKey)
      && (forall i | 0 <= i < |top| :: top[i].count == multiset(Countries(clicks))[top[i].key] > 0)
      && (forall country | country in Countries(clicks) && (forall i | 0 <= i < |top| :: top[i].key != country) ::
            && |top| == TopCountryLimit
            && forall i | 0 <= i < |top| :: multiset(Countries(clicks))[country] <= top[i].count)
  {
    Query.TopGroupsCount(Countries(clicks), TopCountryLimit);
    forall country | country in Countries(clicks) && (forall i | 0 <= i < |TopCountries(clicks)| :: TopCountries(clicks)[i].key != country)
      ensures |TopCountries(clicks)| == TopCountryLimit
      ensures forall i | 0 <= i < |TopCountries(clicks)| :: multiset(Countries(clicks))[country] <= TopCountries(clicks)[i].count
    {
      assert TopCountries(clicks) == Query.TopGroups(Countries(clicks), TopCountryLimit);
      Query.TopGroupsLeaveOutSmaller(Countries(clicks), TopCountryLimit, country);
    }
  }

  // ---------------------------------------------------------------- summary

  /** The conversion rate: "0%" without clicks, else the share of mobile clicks
      (its percentage text with one decimal is not modelled). */
  datatype ConversionRate = NoClicks | MobileShare(mobileClicks: nat, totalClicks: nat)

  /** The analytics summary response, without clicks_by_day. */
  datatype Summary = Summary(
    projectId: int,
    appName: string,
    totalClicks: nat,
    iosClicks: nat,
    androidClicks: nat,
    otherClicks: nat,
    conversionRate: ConversionRate,
    topCountries: seq<Query.Group<string>>)

  /** The summary of one project's clicks: the total, the three platform
      counts, the conversion rate and the top countries. */
  function Summarize(projectId: int, appName: string, clicks: seq<Click>): (s: Summary)
    ensures s.projectId == projectId && s.appName == appName
    ensures s.totalClicks == |clicks|
    ensures s.iosClicks == CountPlatform(clicks, "ios")
    ensures s.androidClicks == CountPlatform(clicks, "android")
    ensures s.otherClicks == CountPlatform(clicks, "other")
    ensures s.iosClicks + s.androidClicks + s.otherClicks <= s.totalClicks
    ensures (forall c | c in clicks :: c.platform in PlatformNames) ==>
      s.iosClicks + s.androidClicks + s.otherClicks == s.totalClicks
    ensures s.totalClicks == 0 ==> s.conversionRate == NoClicks
    ensures s.totalClicks > 0 ==> s.conversionRate == MobileShare(s.iosClicks + s.androidClicks, s.totalClicks)
    ensures s.topCountries == TopCountries(clicks) && |s.topCountries| <= TopCountryLimit
  {
    var total := |clicks|;
    var ios := CountPlatform(clicks, "ios");
    var android := CountPlatform(clicks, "android");
    var other := CountPlatform(clicks, "other");
    var rate := if total > 0 then MobileShare(ios + android, total) else NoClicks;
    PlatformCountsBounded(clicks);
    Summary(projectId, appName, total, ios, android, other, rate, TopCountries(clicks))
  }

  /** get_project_analytics: not found for a missing or foreign project;
      otherwise the summary of that project's clicks. */
  function ProjectAnalytics(db: Database, userId: int, projectId: int): (r: Result<Summary, Error>)
    reads db
    ensures r.Failure? <==> projectId !in db.projects || db.projects[projectId].userId != userId
    ensures r.Success? ==>
      r.value == Summarize(projectId, db.projects[projectId].appName, ClicksOf(db.clicks, projectId))
    ensures r.Success? ==> r.value.totalClicks == CountClicksFor(db.clicks, projectId)
  {
    match FindOwned(db.projects, userId, projectId)
    case None => Failure(NotFound)
    case Some(project) => Success(Summarize(projectId, project.appName, ClicksOf(db.clicks, projectId)))
  }

  // ---------------------------------------------------------------- click listing

  /** The ordering key of `order_by(Click.timestamp.desc())`. */
  function Timestamp(c: Click): int { c.timestamp }

  /** get_project_clicks: not found for a missing or foreign project; otherwise
      the project's clicks, newest first, skipping `skip` and at most `limit`. */
  function ProjectClicks(db: Database, userId: int, projectId: int, skip: nat, limit: nat)
    : (r: Result<seq<Click>, Error>)
    reads db
    ensures r.Failure? <==> projectId !in db.projects || db.projects[projectId].userId != userId
    ensures r.Success? ==>
      && r.value == Query.Page(Query.SortDesc(ClicksOf(db.clicks, projectId), Timestamp), skip, limit)
      && |r.value| <= limit
      && Query.SortedDesc(r.value, Timestamp)
      && (forall i | 0 <= i < |r.value| :: r.value[i].projectId == projectId && r.value[i] in db.clicks)
      && (skip == 0 && limit >= CountClicksFor(db.clicks, projectId) ==>
            multiset(r.value) == multiset(ClicksOf(db.clicks, projectId)))
  {
    match FindOwned(db.projects, userId, projectId)
    case None => Failure(NotFound)
    case Some(_) =>
      var own := ClicksOf(db.clicks, projectId);
      var sorted := Query.SortDesc(own, Timestamp);
      Query.SortedPage(own, Timestamp, skip, limit);
      Success(Query.Page(sorted, skip, limit))
  }

  // ---------------------------------------------------------------- dashboard

  /** `filter(Click.project_id.in_(project_ids))`, in insertion order. */
  function ClicksIn(clicks: seq<Click>, ids: seq<int>): (r: seq<Click>)
    ensures |r| <= |clicks|
    ensures forall i | 0 <= i < |r| :: r[i].projectId in ids && r[i] in clicks
    ensures forall c | c in clicks && c.projectId in ids :: c in r
    ensures forall c :: multiset(r)[c] == if c.projectId in ids then multiset(clicks)[c] else 0
  {
    if clicks == [] then []
    else
      var n := |clicks| - 1;
      var rest := ClicksIn(clicks[..n], ids);
      var last := if clicks[n].projectId in ids then [clicks[n]] else [];
      assert clicks == clicks[..n] + [clicks[n]];
      assert multiset(clicks) == multiset(clicks[..n]) + multiset{clicks[n]};
      assert multiset(rest + last) == multiset(rest) + multiset(last);
      rest + last
  }

  /** Within the selected projects, the number of selected clicks carrying a
      project's id is that project's click count. */
  lemma {:induction false} ClicksInCount(clicks: seq<Click>, ids: seq<int>, id: int)
    requires id in ids
    ensures multiset(ProjectIdsOf(ClicksIn(clicks, ids)))[id] == CountClicksFor(clicks, id)
  {
    if clicks != [] {
      ClicksInCount(clicks[..|clicks| - 1], ids, id);
      ClicksInSnoc(clicks, ids, id);
      CountClicksSnoc(clicks, id);
    }
  }

  lemma ClicksInSnoc(clicks: seq<Click>, ids: seq<int>, id: int)
    requires clicks != [] && id in ids
    ensures multiset(ProjectIdsOf(ClicksIn(clicks, ids)))[id]
      == multiset(ProjectIdsOf(ClicksIn(clicks[..|clicks| - 1], ids)))[id]
        + if clicks[|clicks| - 1].projectId == id then 1 else 0
  {
    var n := |clicks| - 1;
    var prev := ClicksIn(clicks[..n], ids);
    var extra := if clicks[n].projectId in ids then [clicks[n]] else [];
    ClicksInUnfold(clicks, ids);
    IdCountAppend(prev, extra, id);
  }

  /** The occurrences of an id in two tables together are those in each. */
  lemma IdCountAppend(a: seq<Click>, b: seq<Click>, id: int)
    requires |b| <= 1
    ensures multiset(ProjectIdsOf(a + b))[id] == multiset(ProjectIdsOf(a))[id]
      + if b != [] && b[0].projectId == id then 1 else 0
  {
    ProjectIdsOfAppend(a, b);
    if b != [] {
      assert ProjectIdsOf(b) == [b[0].projectId];
    }
  }

  /** One step of the IN filter. */
  lemma ClicksInUnfold(clicks: seq<Click>, ids: seq<int>)
    requires clicks != []
    ensures ClicksIn(clicks, ids) == ClicksIn(clicks[..|clicks| - 1], ids)
      + if clicks[|clicks| - 1].projectId in ids then [clicks[|clicks| - 1]] else []
  {
  }

  /** A project's click count is the number of clicks carrying its id. */
  lemma {:induction false} CountClicksIsMultiplicity(clicks: seq<Click>, id: int)
    ensures CountClicksFor(clicks, id) == multiset(ProjectIdsOf(clicks))[id]
  {
    if clicks != [] {
      CountClicksIsMultiplicity(clicks[..|clicks| - 1], id);
      CountClicksSnoc(clicks, id);
      ProjectIdsOfSnoc(clicks, id);
    }
  }

  /** Appending a row adds one occurrence of its project id. */
  lemma ProjectIdsOfSnoc(clicks: seq<Click>, id: int)
    requires clicks != []
    ensures multiset(ProjectIdsOf(clicks))[id] == multiset(ProjectIdsOf(clicks[..|clicks| - 1]))[id]
      + if clicks[|clicks| - 1].projectId == id then 1 else 0
  {
    var n := |clicks| - 1;
    assert clicks == clicks[..n] + [clicks[n]];
    IdCountAppend(clicks[..n], [clicks[n]], id);
  }

  lemma ProjectIdsOfAppend(a: seq<Click>, b: seq<Click>)
    ensures ProjectIdsOf(a + b) == ProjectIdsOf(a) + ProjectIdsOf(b)
  {
  }

  /** `group_by(Click.platform)` over the given clicks: one row per platform
      name, with the number of clicks carrying it. */
  function PlatformBreakdown(clicks: seq<Click>): (groups: seq<Query.Group<string>>)
    ensures Query.DistinctKeys(groups)
    ensures Query.Total(groups) == |clicks|
    ensures forall i | 0 <= i < |groups| :: groups[i].count == multiset(PlatformsOf(clicks))[groups[i].key] > 0
    ensures forall p | p in PlatformsOf(clicks) :: exists j | 0 <= j < |groups| :: groups[j].key == p
  {
    var values := PlatformsOf(clicks);
    var groups := Query.GroupCount(values);
    Query.GroupCountEntries(values);
    groups
  }

  /** The most clicked project of the dashboard. */
  datatype PopularProject = PopularProject(projectId: int, appName: string, clicks: nat)

  /** The dashboard response. The platform breakdown is the rows of the
      platform GROUP BY, which the router turns into a dictionary. */
  datatype Dashboard = Dashboard(
    totalProjects: nat,
    totalClicks: nat,
    platformBreakdown: seq<Query.Group<string>>,
    mostPopular: Option<PopularProject>)

  /** `group_by(Click.project_id).order_by(count desc).first()` over the
      caller's clicks, with the project's name. */
  function MostPopular(db: Database, ids: seq<int>): (m: Option<PopularProject>)
    reads db
    requires db.Valid()
    requires forall id | id in ids :: id in db.projects
    ensures m.None? <==> ClicksIn(db.clicks, ids) == []
    ensures m.Some? ==>
      && m.value.projectId in ids
      && m.value.appName == db.projects[m.value.projectId].appName
      && m.value.clicks == CountClicksFor(db.clicks, m.value.projectId) > 0
      && forall id | id in ids :: CountClicksFor(db.clicks, id) <= m.value.clicks
  {
    var values := ProjectIdsOf(ClicksIn(db.clicks, ids));
    var top := Query.TopGroups(values, 1);
    Query.TopGroupFirst(values, 1, 0);
    if top == [] then None
    else
      var best := top[0];
      Query.TopGroupsCount(values, 1);
      SelectedIdIsGiven(db.clicks, ids, best.key);
      ClicksInCount(db.clicks, ids, best.key);
      assert forall id | id in ids :: CountClicksFor(db.clicks, id) <= best.count by {
        forall id | id in ids ensures CountClicksFor(db.clicks, id) <= best.count {
          ClicksInCount(db.clicks, ids, id);
          Query.TopGroupFirst(values, 1, id);
        }
      }
      Some(PopularProject(best.key, db.projects[best.key].appName, best.count))
  }

  /** A project id that occurs among the selected clicks is one of the given ids. */
  lemma SelectedIdIsGiven(clicks: seq<Click>, ids: seq<int>, id: int)
    requires multiset(ProjectIdsOf(ClicksIn(clicks, ids)))[id] > 0
    ensures id in ids
  {
    var selected := ClicksIn(clicks, ids);
    assert id in ProjectIdsOf(selected);
    var i :| 0 <= i < |selected| && ProjectIdsOf(selected)[i] == id;
  }

  /** get_dashboard_summary: with no projects, no clicks, an empty breakdown and
      no most popular project; otherwise the breakdown rows add up to the total
      number of clicks on the caller's projects, and the most popular project is
      one of theirs with the most clicks. */
  function DashboardSummary(db: Database, userId: int): (d: Dashboard)
    reads db
    requires db.Valid()
    ensures OwnedIds(db, userId) == [] ==>
      d.totalProjects == 0 && d.totalClicks == 0 && d.platformBreakdown == [] && d.mostPopular == None
    ensures d.totalProjects == |OwnedIds(db, userId)|
    ensures d.totalClicks == |ClicksIn(db.clicks, OwnedIds(db, userId))|
    ensures Query.Total(d.platformBreakdown) == d.totalClicks
    ensures Query.DistinctKeys(d.platformBreakdown)
    ensures forall i | 0 <= i < |d.platformBreakdown| ::
      d.platformBreakdown[i].count == multiset(PlatformsOf(ClicksIn(db.clicks, OwnedIds(db, userId))))[d.platformBreakdown[i].key] > 0
    ensures d.mostPopular.None? <==> d.totalClicks == 0
    ensures d.mostPopular.Some? ==>
      var m := d.mostPopular.value;
      && m.projectId in db.projects
      && db.projects[m.projectId].userId == userId
      && m.appName == db.projects[m.projectId].appName
      && m.clicks == CountClicksFor(db.clicks, m.projectId)
      && forall id | id in db.projects && db.projects[id].userId == userId ::
           CountClicksFor(db.clicks, id) <= m.clicks
  {
    var ids := OwnedIds(db, userId);
    var selected := ClicksIn(db.clicks, ids);
    var totalClicks := if ids != [] then |selected| else 0;
    var breakdown := if ids != [] then PlatformBreakdown(selected) else [];
    var popular := if ids != [] then MostPopular(db, ids) else None;
    assert ids == [] ==> selected == [] by {
      if selected != [] {
        assert selected[0].projectId in ids;
      }
    }
    Dashboard(|ids|, totalClicks, breakdown, popular)
  }
}
