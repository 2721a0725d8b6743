/** app/routers/projects.py: create (with the short-code collision loop), list,
    get, update (sparse) and delete, each scoped to the current user. BASE_URL
    comes from the environment; it is a parameter here. */
module Projects {
  import opened Wrappers
  import ShortUrl
  import Query
  import opened Store

  /** The body of a create request (its URLs already validated by the schema). */
  datatype ProjectCreate = ProjectCreate(
    appName: string,
    iosUrl: string,
    androidUrl: string,
    fallbackUrl: Option<string>)

  /** The response record: the stored fields plus the two computed ones. */
  datatype ProjectResponse = ProjectResponse(
    id: int,
    appName: string,
    iosUrl: string,
    androidUrl: string,
    fallbackUrl: Option<string>,
    shortCode: string,
    shortUrl: string,
    totalClicks: nat)

  /** `{**project.__dict__, "short_url": ..., "total_clicks": ...}`: the
      stored row, its short URL (which ends in '/' and the code) and its click
      count. */
  function Respond(id: int, project: Project, clicks: seq<Click>, baseUrl: string): (r: ProjectResponse)
    ensures r.id == id && r.shortCode == project.shortCode
    ensures |r.shortUrl| > |r.shortCode|
      && r.shortUrl[|r.shortUrl| - |r.shortCode|..] == r.shortCode
      && r.shortUrl[|r.shortUrl| - |r.shortCode| - 1] == '/'
    ensures r.totalClicks <= |clicks|
    ensures r.appName == project.appName && r.iosUrl == project.iosUrl
      && r.androidUrl == project.androidUrl && r.fallbackUrl == project.fallbackUrl
    ensures r.shortUrl == ShortUrl.GenerateShortUrl(baseUrl, project.shortCode)
    ensures r.totalClicks == CountClicksFor(clicks, id)
  {
    ProjectResponse(
      id, project.appName, project.iosUrl, project.androidUrl, project.fallbackUrl,
      project.shortCode, ShortUrl.GenerateShortUrl(baseUrl, project.shortCode),
      CountClicksFor(clicks, id))
  }

  // ---------------------------------------------------------------- create

  /** The k-th call of generate_short_code(), made with the random draws choices(k). */
  function Candidate(choices: nat -> (nat -> nat), k: nat): (code: string)
    ensures |code| == ShortUrl.DefaultCodeLength
  {
    ShortUrl.GenerateShortCode(ShortUrl.DefaultCodeLength, choices(k))
  }

  /** The collision loop of create_project: generate a code, and generate again
      while some project already has it. The loop has no attempt bound; it ends
      because some draw gives a free code. The result is the first free
      candidate, after one generation per candidate tried. */
  method ChooseShortCode(projects: map<int, Project>, choices: nat -> (nat -> nat))
    returns (code: string, generations: nat)
    requires exists k: nat :: !CodeInUse(projects, Candidate(choices, k))
    ensures !CodeInUse(projects, code)
    ensures generations >= 1 && code == Candidate(choices, generations - 1)
    ensures forall k | 0 <= k < generations - 1 :: CodeInUse(projects, Candidate(choices, k))
  {
    ghost var free: nat :| !CodeInUse(projects, Candidate(choices, free));
    var k: nat := 0;
    code := Candidate(choices, 0);
    while CodeInUse(projects, code)
      invariant k <= free
      invariant code == Candidate(choices, k)
      invariant forall j | 0 <= j < k :: CodeInUse(projects, Candidate(choices, j))
      decreases free - k
    {
      assert k != free;
      k := k + 1;
      code := Candidate(choices, k);
    }
    generations := k + 1;
  }

  /** An id with no project has no clicks: the cascade removed them with it. */
  lemma NewIdHasNoClicks(db: Database, id: int)
    requires db.Valid()
    requires id !in db.projects
    ensures CountClicksFor(db.clicks, id) == 0
  {
  }

  /** create_project: adds exactly one project, owned by the caller, under the
      id SQLite assigns and a short code no other project has; nothing else
      changes. The response is the stored row with its short URL and zero
      clicks, which is the true count for the new id. */
  method CreateProject(
    db: Database, userId: int, input: ProjectCreate,
    choices: nat -> (nat -> nat), baseUrl: string)
    returns (response: ProjectResponse, generations: nat)
    requires db.Valid()
    requires exists k: nat :: !CodeInUse(db.projects, Candidate(choices, k))
    modifies db
    ensures db.Valid()
    ensures response.id == NewRowId(old(db.projects), old(db.idBound))
    ensures response.id !in old(db.projects) && forall k | k in old(db.projects) :: k < response.id
    ensures !CodeInUse(old(db.projects), response.shortCode)
    ensures generations >= 1 && response.shortCode == Candidate(choices, generations - 1)
    ensures forall k | 0 <= k < generations - 1 :: CodeInUse(old(db.projects), Candidate(choices, k))
    ensures db.projects == old(db.projects)[response.id := Project(
      userId, input.appName, input.iosUrl, input.androidUrl, input.fallbackUrl, response.shortCode)]
    ensures db.clicks == old(db.clicks) && db.idBound == response.id + 1
    ensures response == Respond(response.id, db.projects[response.id], db.clicks, baseUrl)
    ensures response.totalClicks == 0
  {
    var code;
    code, generations := ChooseShortCode(db.projects, choices);
    var id := NewRowId(db.projects, db.idBound);
    var project := Project(userId, input.appName, input.iosUrl, input.androidUrl, input.fallbackUrl, code);
    NewIdHasNoClicks(db, id);
    db.projects := db.projects[id := project];
    db.idBound := id + 1;
    response := Respond(id, project, db.clicks, baseUrl);
  }

  // ---------------------------------------------------------------- list and get

  /** A page of the caller's ids holds only the caller's projects, in ascending id. */
  lemma OwnedPage(db: Database, userId: int, skip: nat, limit: nat)
    requires db.Valid()
    ensures var page := Query.Page(OwnedIds(db, userId), skip, limit);
      && (forall i | 0 <= i < |page| :: page[i] in db.projects && db.projects[page[i]].userId == userId)
      && (forall i, j | 0 <= i < j < |page| :: page[i] < page[j])
  {
    var all := OwnedIds(db, userId);
    var page := Query.Page(all, skip, limit);
    forall i | 0 <= i < |page| ensures page[i] in db.projects && db.projects[page[i]].userId == userId {
      assert page[i] == all[skip + i];
      assert all[skip + i] in all;
    }
    forall i, j | 0 <= i < j < |page| ensures page[i] < page[j] {
      assert page[i] == all[skip + i] && page[j] == all[skip + j];
    }
  }

  /** list_projects: the caller's projects, skipping the first `skip` and
      returning at most `limit`, each with its click count. */
  method ListProjects(db: Database, userId: int, skip: nat, limit: nat, baseUrl: string)
    returns (result: seq<ProjectResponse>)
    requires db.Valid()
    ensures var page := Query.Page(OwnedIds(db, userId), skip, limit);
      && |result| == |page|
      && forall i | 0 <= i < |result| :: result[i] == Respond(page[i], db.projects[page[i]], db.clicks, baseUrl)
    ensures |result| <= limit
    ensures forall i | 0 <= i < |result| ::
      && result[i].id in db.projects
      && db.projects[result[i].id].userId == userId
      && result[i].totalClicks == CountClicksFor(db.clicks, result[i].id)
    ensures forall i, j | 0 <= i < j < |result| :: result[i].id < result[j].id
  {
    var page := Query.Page(OwnedIds(db, userId), skip, limit);
    OwnedPage(db, userId, skip, limit);
    result := [];
    for i := 0 to |page|
      invariant |result| == i
      invariant forall k | 0 <= k < i :: result[k] == Respond(page[k], db.projects[page[k]], db.clicks, baseUrl)
    {
      result := result + [Respond(page[i], db.projects[page[i]], db.clicks, baseUrl)];
    }
  }

  /** get_project: not found unless the project exists and belongs to the caller. */
  function GetProject(db: Database, userId: int, projectId: int, baseUrl: string)
    : (r: Result<ProjectResponse, Error>)
    reads db
    ensures r.Failure? <==> projectId !in db.projects || db.projects[projectId].userId != userId
    ensures r.Success? ==> r.value == Respond(projectId, db.projects[projectId], db.clicks, baseUrl)
  {
    match FindOwned(db.projects, userId, projectId)
    case None => Failure(NotFound)
    case Some(project) => Success(Respond(projectId, project, db.clicks, baseUrl))
  }

  // ---------------------------------------------------------------- update

  /** The fields a sparse update may set. */
  datatype FieldName = AppNameField | IosUrlField | AndroidUrlField | FallbackUrlField

  /** One item of `project_update.dict(exclude_unset=True)`. Sending null for the
      fallback is a set field with value None. */
  datatype FieldValue =
    | AppName(appName: string)
    | IosUrl(iosUrl: string)
    | AndroidUrl(androidUrl: string)
    | FallbackUrl(fallbackUrl: Option<string>)
  {
    function Name(): FieldName {
      match this
      case AppName(_) => AppNameField
      case IosUrl(_) => IosUrlField
      case AndroidUrl(_) => AndroidUrlField
      case FallbackUrl(_) => FallbackUrlField
    }
  }

  /** The current value of a field, as an item of the same shape. */
  function Get(project: Project, field: FieldName): (v: FieldValue)
    ensures v.Name() == field
  {
    match field
    case AppNameField => AppName(project.appName)
    case IosUrlField => IosUrl(project.iosUrl)
    case AndroidUrlField => AndroidUrl(project.androidUrl)
    case FallbackUrlField => FallbackUrl(project.fallbackUrl)
  }

  /** `setattr(project, field, value)`: that one field changes, and only it. */
  function SetField(project: Project, v: FieldValue): (q: Project)
    ensures q.userId == project.userId && q.shortCode == project.shortCode
    ensures Get(q, v.Name()) == v
    ensures forall f | f != v.Name() :: Get(q, f) == Get(project, f)
  {
    match v
    case AppName(name) => project.(appName := name)
    case IosUrl(url) => project.(iosUrl := url)
    case AndroidUrl(url) => project.(androidUrl := url)
    case FallbackUrl(url) => project.(fallbackUrl := url)
  }

  /** The setattr loop over the update items, in order. */
  function ApplyAll(project: Project, updates: seq<FieldValue>): (q: Project)
    ensures q.userId == project.userId && q.shortCode == project.shortCode
  {
    if updates == [] then project
    else SetField(ApplyAll(project, updates[..|updates| - 1]), updates[|updates| - 1])
  }

  /** The last item that sets the field; a dict holds at most one per field. */
  function LastFor(updates: seq<FieldValue>, field: FieldName): (v: Option<FieldValue>)
    ensures v.None? <==> forall i | 0 <= i < |updates| :: updates[i].Name() != field
    ensures v.Some? ==> v.value.Name() == field && v.value in updates
    ensures v.Some? ==> exists i | 0 <= i < |updates| ::
      updates[i] == v.value && forall j | i < j < |updates| :: updates[j].Name() != field
  {
    if updates == [] then None
    else if updates[|updates| - 1].Name() == field then Some(updates[|updates| - 1])
    else LastFor(updates[..|updates| - 1], field)
  }

  /** The sparse update changes exactly the fields that were sent: a sent field
      takes the sent value, every other field keeps its value. */
  lemma {:induction false} ApplyAllChangesSentFields(project: Project, updates: seq<FieldValue>, field: FieldName)
    ensures Get(ApplyAll(project, updates), field) ==
      match LastFor(updates, field)
      case None => Get(project, field)
      case Some(v) => v
  {
    if updates != [] {
      ApplyAllChangesSentFields(project, updates[..|updates| - 1], field);
    }
  }

  /** update_project: not found leaves the store as it was; otherwise the
      caller's project becomes ApplyAll of the update items, and nothing else
      changes. */
  method UpdateProject(
    db: Database, userId: int, projectId: int, updates: seq<FieldValue>, baseUrl: string)
    returns (r: Result<ProjectResponse, Error>)
    requires db.Valid()
    modifies db
    ensures db.Valid()
    ensures db.clicks == old(db.clicks) && db.idBound == old(db.idBound)
    ensures FindOwned(old(db.projects), userId, projectId).None? ==>
      r == Failure(NotFound) && db.projects == old(db.projects)
    ensures FindOwned(old(db.projects), userId, projectId).Some? ==>
      && db.projects == old(db.projects)[projectId := ApplyAll(old(db.projects)[projectId], updates)]
      && r == Success(Respond(projectId, db.projects[projectId], db.clicks, baseUrl))
  {
    var found := FindOwned(db.projects, userId, projectId);
    if found.None? {
      return Failure(NotFound);
    }
    var project := found.value;
    for i := 0 to |updates|
      invariant project == ApplyAll(found.value, updates[..i])
    {
      assert updates[..i + 1][..i] == updates[..i];
      project := SetField(project, updates[i]);
    }
    assert updates[..|updates|] == updates;
    db.projects := db.projects[projectId := project];
    r := Success(Respond(projectId, project, db.clicks, baseUrl));
  }

  // ---------------------------------------------------------------- delete

  /** delete_project: not found leaves the store as it was; otherwise that
      project and, by the cascade its docstring describes, its clicks are gone,
      and nothing else changes. */
  method DeleteProject(db: Database, userId: int, projectId: int) returns (r: Result<(), Error>)
    requires db.Valid()
    modifies db
    ensures db.Valid()
    ensures db.idBound == old(db.idBound)
    ensures FindOwned(old(db.projects), userId, projectId).None? ==>
      r == Failure(NotFound) && db.projects == old(db.projects) && db.clicks == old(db.clicks)
    ensures FindOwned(old(db.projects), userId, projectId).Some? ==>
      && r == Success(())
      && db.projects == old(db.projects) - {projectId}
      && db.clicks == ClicksNotOf(old(db.clicks), projectId)
  {
    if FindOwned(db.projects, userId, projectId).None? {
      return Failure(NotFound);
    }
    var remaining := ClicksNotOf(db.clicks, projectId);
    forall i | 0 <= i < |remaining| ensures remaining[i].projectId in db.projects - {projectId} {
      var j :| 0 <= j < |db.clicks| && db.clicks[j] == remaining[i];
    }
    db.projects := db.projects - {projectId};
    db.clicks := remaining;
    r := Success(());
  }
}
