/** The records the routers read and write, and the database session they share.
    Project follows app/models.py; Click, User and ProjectUpdate are absent from
    that file and are modelled from how the routers use them (a user is known by
    its id). The store keeps projects in a map keyed by id and clicks in the
    order they were inserted. */
module Store {
  import opened Wrappers

  /** A row of the projects table, without its id (the map key) and timestamps. */
  datatype Project = Project(
    userId: int,
    appName: string,
    iosUrl: string,
    androidUrl: string,
    fallbackUrl: Option<string>,
    shortCode: string)

  /** A row of the clicks table, as redirect_to_store fills it in. */
  datatype Click = Click(
    projectId: int,
    platform: string,
    deviceType: string,
    browser: string,
    osVersion: string,
    country: string,
    city: Option<string>,
    ipHash: string,
    timestamp: int)

  /** The HTTP 404 every router raises for a missing or foreign record. */
  datatype Error = NotFound

  /** The unique constraint on the short_code column. */
  ghost predicate UniqueShortCodes(projects: map<int, Project>) {
    forall a, b | a in projects && b in projects && projects[a].shortCode == projects[b].shortCode :: a == b
  }

  /** `db.query(Project).filter(Project.short_code == code).first()` finds a row. */
  predicate CodeInUse(projects: map<int, Project>, code: string) {
    code in UsedCodes(projects)
  }

  /** The values of the short_code column. */
  function UsedCodes(projects: map<int, Project>): set<string> {
    set id | id in projects :: projects[id].shortCode
  }

  /** The id of the project with the given short code; there is at most one. */
  function ProjectIdByCode(projects: map<int, Project>, code: string): (found: Option<int>)
    requires UniqueShortCodes(projects)
    ensures found.Some? <==> CodeInUse(projects, code)
    ensures found.Some? ==> found.value in projects && projects[found.value].shortCode == code
  {
    if CodeInUse(projects, code) then
      var id :| id in projects && projects[id].shortCode == code;
      Some(id)
    else None
  }

  /** The owner-scoped lookup every router starts with:
      `filter(Project.id == project_id, Project.user_id == current_user.id).first()`. */
  function FindOwned(projects: map<int, Project>, userId: int, projectId: int): (found: Option<Project>)
    ensures found.None? <==> projectId !in projects || projects[projectId].userId != userId
    ensures found.Some? ==> found.value == projects[projectId]
  {
    if projectId in projects && projects[projectId].userId == userId then Some(projects[projectId])
    else None
  }

  /** The caller's project ids below bound, in ascending order (the order the
      projects table returns rows without an ORDER BY). */
  function OwnedIdsBelow(projects: map<int, Project>, userId: int, bound: int): (ids: seq<int>)
    ensures forall i, j | 0 <= i < j < |ids| :: ids[i] < ids[j]
    ensures forall id :: id in ids <==> id in projects && projects[id].userId == userId && 0 < id < bound
    decreases bound
  {
    if bound <= 1 then []
    else
      var prev := OwnedIdsBelow(projects, userId, bound - 1);
      var last := bound - 1;
      assert forall i | 0 <= i < |prev| :: prev[i] < last by {
        forall i | 0 <= i < |prev| ensures prev[i] < last {
          assert prev[i] in prev;
        }
      }
      if last in projects && projects[last].userId == userId then prev + [last] else prev
  }

  /** `db.query(Project).filter(Project.user_id == current_user.id)`. */
  function OwnedIds(db: Database, userId: int): (ids: seq<int>)
    reads db
    requires db.Valid()
    ensures forall i, j | 0 <= i < j < |ids| :: ids[i] < ids[j]
    ensures forall id :: id in ids <==> id in db.projects && db.projects[id].userId == userId
  {
    OwnedIdsBelow(db.projects, userId, db.idBound)
  }

  /** `filter(Click.project_id == projectId)`, in insertion order. */
  function ClicksOf(clicks: seq<Click>, projectId: int): (r: seq<Click>)
    ensures |r| <= |clicks|
    ensures forall i | 0 <= i < |r| :: r[i].projectId == projectId
    ensures forall c | c in clicks && c.projectId == projectId :: c in r
    ensures forall c | c in r :: c in clicks
    ensures forall c :: multiset(r)[c] == if c.projectId == projectId then multiset(clicks)[c] else 0
  {
    if clicks == [] then []
    else
      var n := |clicks| - 1;
      var rest := ClicksOf(clicks[..n], projectId);
      var last := if clicks[n].projectId == projectId then [clicks[n]] else [];
      assert clicks == clicks[..n] + [clicks[n]];
      assert multiset(clicks) == multiset(clicks[..n]) + multiset{clicks[n]};
      assert multiset(rest + last) == multiset(rest) + multiset(last);
      rest + last
  }

  /** The clicks of a project in a table are those of all but its last row,
      then the last row if it belongs to the project. */
  lemma ClicksOfSnoc(clicks: seq<Click>, projectId: int)
    requires clicks != []
    ensures var n := |clicks| - 1;
      ClicksOf(clicks, projectId)
        == ClicksOf(clicks[..n], projectId) + (if clicks[n].projectId == projectId then [clicks[n]] else [])
  {
  }

  /** `db.query(Click).filter(Click.project_id == projectId).count()`. */
  function CountClicksFor(clicks: seq<Click>, projectId: int): (n: nat)
    ensures n <= |clicks|
    ensures n == 0 <==> forall c | c in clicks :: c.projectId != projectId
  {
    var own := ClicksOf(clicks, projectId);
    assert own != [] ==> own[0] in own;
    |own|
  }

  /** Appending a row adds one to its project's count and nothing to the others. */
  lemma CountClicksSnoc(clicks: seq<Click>, projectId: int)
    requires clicks != []
    ensures CountClicksFor(clicks, projectId) == CountClicksFor(clicks[..|clicks| - 1], projectId)
      + if clicks[|clicks| - 1].projectId == projectId then 1 else 0
  {
    ClicksOfSnoc(clicks, projectId);
  }

  /** The largest id below `n` in use, or 0 when there is none. */
  function LargestIdBelow(projects: map<int, Project>, n: int): (m: int)
    ensures m == 0 || (m in projects && 0 < m < n)
    ensures forall k | k in projects && 0 < k < n :: k <= m
    decreases n
  {
    if n <= 1 then 0
    else if n - 1 in projects then n - 1
    else LargestIdBelow(projects, n - 1)
  }

  /** The id SQLite gives a new row of a table keyed by a plain INTEGER PRIMARY
      KEY (no AUTOINCREMENT): one more than the largest id in use, or 1 in an
      empty table. A deleted largest id is therefore handed out again. */
  function NewRowId(projects: map<int, Project>, bound: int): (id: int)
    requires forall k | k in projects :: 0 < k < bound
    ensures 0 < id && id !in projects
    ensures forall k | k in projects :: k < id
    ensures id == 1 || id - 1 in projects
  {
    LargestIdBelow(projects, bound) + 1
  }

  /** The clicks that survive deleting the project (the cascade). */
  function ClicksNotOf(clicks: seq<Click>, projectId: int): (r: seq<Click>)
    ensures forall i | 0 <= i < |r| :: r[i].projectId != projectId
    ensures forall c | c in clicks && c.projectId != projectId :: c in r
    ensures forall c | c in r :: c in clicks
    ensures forall c :: multiset(r)[c] == if c.projectId != projectId then multiset(clicks)[c] else 0
  {
    if clicks == [] then []
    else
      var n := |clicks| - 1;
      var rest := ClicksNotOf(clicks[..n], projectId);
      var last := if clicks[n].projectId != projectId then [clicks[n]] else [];
      assert clicks == clicks[..n] + [clicks[n]];
      assert multiset(clicks) == multiset(clicks[..n]) + multiset{clicks[n]};
      assert multiset(rest + last) == multiset(rest) + multiset(last);
      rest + last
  }

  /** The database session: the projects and clicks tables, and a bound above
      every project id in use (the next id itself is NewRowId). */
  class Database {
    var projects: map<int, Project>
    var clicks: seq<Click>
    var idBound: int

    /** The unique short-code constraint, positive ids below `idBound`, and
        every click referring to an existing project. `idBound` is not a
        column: it only bounds the ids in use, so that they can be listed. */
    ghost predicate Valid()
      reads this
    {
      && UniqueShortCodes(projects)
      && 0 < idBound
      && (forall id | id in projects :: 0 < id < idBound)
      && (forall i | 0 <= i < |clicks| :: clicks[i].projectId in projects)
    }

    constructor ()
      ensures Valid()
      ensures projects == map[] && clicks == [] && idBound == 1
    {
      projects, clicks, idBound := map[], [], 1;
    }
  }
}
