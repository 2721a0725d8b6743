/** app/routers/redirect.py: redirect_to_store. The decision is pure (look the
    code up, classify the user-agent, pick the destination, build the click);
    the handler then appends the click to the store. */
module Redirect {
  import opened Wrappers
  import Text
  import ShortUrl
  import opened DeviceDetect
  import opened Store

  /** The destination for a platform: the iOS URL, the Android URL, or the
      fallback URL with `or` falling back to the Android URL when the fallback
      is None or empty. */
  function Destination(project: Project, platform: Platform): (url: string)
    ensures url == project.iosUrl || url == project.androidUrl || project.fallbackUrl == Some(url)
    ensures platform == Ios ==> url == project.iosUrl
    ensures platform == Android ==> url == project.androidUrl
  {
    match platform
    case Ios => project.iosUrl
    case Android => project.androidUrl
    case Other =>
      if project.fallbackUrl.Some? && project.fallbackUrl.value != "" then project.fallbackUrl.value
      else project.androidUrl
  }

  /** Other goes to a non-empty fallback URL, and to the Android URL otherwise. */
  lemma OtherDestination(project: Project)
    ensures project.fallbackUrl.Some? && project.fallbackUrl.value != "" ==>
      Destination(project, Other) == project.fallbackUrl.value
    ensures project.fallbackUrl.None? || project.fallbackUrl.value == "" ==>
      Destination(project, Other) == project.androidUrl
  {
  }

  /** `header.split(",")[0]`: the text before the first comma. */
  function FirstSegment(header: string): (segment: string)
    ensures segment <= header
    ensures ',' !in segment
    ensures |segment| == |header| || header[|segment|] == ','
  {
    if header == [] || header[0] == ',' then []
    else [header[0]] + FirstSegment(header[1..])
  }

  /** The client IP: the first comma-separated entry of a non-empty
      X-Forwarded-For header, stripped of whitespace; otherwise the peer's host,
      or "unknown" when the request has no peer. */
  function ClientIp(forwardedFor: Option<string>, clientHost: Option<string>): (ip: string)
    ensures forwardedFor.Some? && forwardedFor.value != "" ==>
      && ',' !in ip
      && (ip == [] || (ip[0] !in Text.Whitespace && ip[|ip| - 1] !in Text.Whitespace))
      && ip == Text.Strip(FirstSegment(forwardedFor.value))
    ensures forwardedFor.None? || forwardedFor.value == "" ==>
      ip == (if clientHost.Some? then clientHost.value else "unknown")
  {
    var ip := clientHost.GetOr("unknown");
    if forwardedFor.Some? && forwardedFor.value != "" then
      var segment := FirstSegment(forwardedFor.value);
      var stripped := Text.Strip(segment);
      Text.StripAddsNothing(segment, Text.Whitespace, ',');
      stripped
    else ip
  }

  /** What a successful redirect produces: the destination URL and the click it records. */
  datatype Outcome = Outcome(url: string, click: Click)

  /** The redirect decision on a snapshot of the projects table. */
  function Resolve(
    projects: map<int, Project>, shortCode: string, userAgent: string,
    forwardedFor: Option<string>, clientHost: Option<string>,
    parse: Parser, sha256: string -> ShortUrl.Sha256Hex, now: int): (r: Result<Outcome, Error>)
    requires UniqueShortCodes(projects)
    ensures r.Failure? <==> !CodeInUse(projects, shortCode)
    ensures r.Success? ==>
      var click := r.value.click;
      && click.projectId in projects
      && projects[click.projectId].shortCode == shortCode
      && r.value.url == Destination(projects[click.projectId], DetectPlatform(userAgent, parse))
      && click.platform == DetectPlatform(userAgent, parse).Name()
      && click.deviceType == GetDeviceInfo(userAgent, parse).device
      && click.browser == GetDeviceInfo(userAgent, parse).browser
      && click.osVersion == GetDeviceInfo(userAgent, parse).osVersion
      && click.ipHash == ShortUrl.HashIp(sha256, ClientIp(forwardedFor, clientHost))
      && click.country == "Unknown" && click.city == None
      && click.timestamp == now
  {
    match ProjectIdByCode(projects, shortCode)
    case None => Failure(NotFound)
    case Some(id) =>
      var project := projects[id];
      var platform := DetectPlatform(userAgent, parse);
      var info := GetDeviceInfo(userAgent, parse);
      var ip := ClientIp(forwardedFor, clientHost);
      var click := Click(
        id, platform.Name(), info.device, info.browser, info.osVersion,
        "Unknown", None, ShortUrl.HashIp(sha256, ip), now);
      Success(Outcome(Destination(project, platform), click))
  }

  /** The stored platform is the one that chose the URL: the click's platform
      name, read back, gives the same destination. */
  lemma ClickPlatformChoseUrl(
    projects: map<int, Project>, shortCode: string, userAgent: string,
    forwardedFor: Option<string>, clientHost: Option<string>,
    parse: Parser, sha256: string -> ShortUrl.Sha256Hex, now: int)
    requires UniqueShortCodes(projects)
    requires Resolve(projects, shortCode, userAgent, forwardedFor, clientHost, parse, sha256, now).Success?
    ensures var o := Resolve(projects, shortCode, userAgent, forwardedFor, clientHost, parse, sha256, now).value;
      exists p: Platform :: p.Name() == o.click.platform && o.url == Destination(projects[o.click.projectId], p)
  {
    var o := Resolve(projects, shortCode, userAgent, forwardedFor, clientHost, parse, sha256, now).value;
    var p := DetectPlatform(userAgent, parse);
    assert p.Name() == o.click.platform && o.url == Destination(projects[o.click.projectId], p);
  }

  /** The click never stores the raw address: its ipHash is a 64-digit hex
      digest, so it differs from any address that is not one (every IPv4 or
      IPv6 text, which contains '.' or ':'). */
  lemma NoRawIpStored(
    projects: map<int, Project>, shortCode: string, userAgent: string,
    forwardedFor: Option<string>, clientHost: Option<string>,
    parse: Parser, sha256: string -> ShortUrl.Sha256Hex, now: int)
    requires UniqueShortCodes(projects)
    requires Resolve(projects, shortCode, userAgent, forwardedFor, clientHost, parse, sha256, now).Success?
    requires !ShortUrl.IsHexDigest(ClientIp(forwardedFor, clientHost))
    ensures Resolve(projects, shortCode, userAgent, forwardedFor, clientHost, parse, sha256, now).value.click.ipHash
      != ClientIp(forwardedFor, clientHost)
  {
  }

  /** redirect_to_store: 404 and no click for an unknown code; otherwise append
      exactly the decided click and answer with the decided destination. */
  method RedirectToStore(
    db: Database, shortCode: string, userAgentHeader: Option<string>,
    forwardedFor: Option<string>, clientHost: Option<string>,
    parse: Parser, sha256: string -> ShortUrl.Sha256Hex, now: int)
    returns (r: Result<string, Error>)
    requires db.Valid()
    modifies db
    ensures db.Valid()
    ensures db.projects == old(db.projects) && db.idBound == old(db.idBound)
    ensures var decision := Resolve(old(db.projects), shortCode, userAgentHeader.GetOr(""),
                                    forwardedFor, clientHost, parse, sha256, now);
      match decision
      case Failure(e) => r == Failure(e) && db.clicks == old(db.clicks)
      case Success(o) => r == Success(o.url) && db.clicks == old(db.clicks) + [o.click]
  {
    var userAgent := userAgentHeader.GetOr("");
    var decision := Resolve(db.projects, shortCode, userAgent, forwardedFor, clientHost, parse, sha256, now);
    match decision {
      case Failure(e) =>
        r := Failure(e);
      case Success(o) =>
        db.clicks := db.clicks + [o.click];
        r := Success(o.url);
    }
  }
}
