/**
 * The worker's `fetch` handler (src/index.js:7-45): route the request path, validate the
 * path parameter, and either answer at once or hand over to one of the GitHub handlers.
 * The path is taken as already extracted from the request URL.
 */
module Worker {
  import opened Wrappers
  import opened Strings
  import opened Validators
  import opened Payload
  import opened GitHub

  const UserPrefix := "/user/"
  const RepoPrefix := "/repo/"
  const ReposPrefix := "/repos/"

  const InvalidUsername := "Invalid username"
  const InvalidRepoPath := "Invalid repository path. Format: owner/repo"

  /** What `fetch` decides before any upstream call */
  datatype Decision =
    | Home
    | BadRequest(message: string)
    | CallUser(username: string)
    | CallRepo(repoPath: string)
    | CallRepos(username: string)
    | NotFound

  /**
   * `path.split(prefix)[1]` for a path that starts with `prefix`: the text after the
   * prefix, up to the next occurrence of the prefix if there is one.
   */
  function Param(path: string, prefix: string): (r: string)
    requires prefix != [] && StartsWith(path, prefix)
    ensures StartsWith(path[|prefix|..], r)
    ensures !Includes(r, prefix)
    ensures |prefix| + |r| == |path| || OccursAt(path, prefix, |prefix| + |r|)
    ensures forall j: nat :: |prefix| <= j < |prefix| + |r| ==> !OccursAt(path, prefix, j)
  {
    SplitSecondPiece(path, prefix);
    Split(path, prefix)[1]
  }

  /** With no later occurrence of the prefix, the parameter is the whole rest of the path. */
  lemma ParamIsRest(path: string, prefix: string)
    requires prefix != [] && StartsWith(path, prefix)
    requires !Includes(path[|prefix|..], prefix)
    ensures Param(path, prefix) == path[|prefix|..]
  {
    OccursInSuffix(path, prefix, |prefix|, |Param(path, prefix)|);
  }

  /**
   * The routing of `fetch`, in the order the source tests the cases. The contract
   * characterises each decision without reference to that order: every call carries the
   * parameter of its prefix, unchanged, after it passed its validator.
   */
  function Route(path: string): (d: Decision)
    ensures d == Home <==> path == "/"
    ensures d.CallUser? <==> StartsWith(path, UserPrefix) && IsValidUsername(Param(path, UserPrefix))
    ensures d.CallRepo? <==> StartsWith(path, RepoPrefix) && IsValidRepoPath(Param(path, RepoPrefix))
    ensures d.CallRepos? <==> StartsWith(path, ReposPrefix) && IsValidUsername(Param(path, ReposPrefix))
    ensures d.CallUser? ==> d.username == Param(path, UserPrefix)
    ensures d.CallRepo? ==> d.repoPath == Param(path, RepoPrefix)
    ensures d.CallRepos? ==> d.username == Param(path, ReposPrefix)
    ensures d.BadRequest? <==>
      || (StartsWith(path, UserPrefix) && !IsValidUsername(Param(path, UserPrefix)))
      || (StartsWith(path, RepoPrefix) && !IsValidRepoPath(Param(path, RepoPrefix)))
      || (StartsWith(path, ReposPrefix) && !IsValidUsername(Param(path, ReposPrefix)))
    ensures d.BadRequest? ==> d.message == if StartsWith(path, RepoPrefix) then InvalidRepoPath else InvalidUsername
    ensures d == NotFound <==>
      path != "/" && !StartsWith(path, UserPrefix) && !StartsWith(path, RepoPrefix) && !StartsWith(path, ReposPrefix)
  {
    PrefixesDisjoint(path);
    if path == "/" then Home
    else if StartsWith(path, UserPrefix) then
      var username := Param(path, UserPrefix);
      if IsValidUsername(username) then CallUser(username) else BadRequest(InvalidUsername)
    else if StartsWith(path, RepoPrefix) then
      var repoPath := Param(path, RepoPrefix);
      if IsValidRepoPath(repoPath) then CallRepo(repoPath) else BadRequest(InvalidRepoPath)
    else if StartsWith(path, ReposPrefix) then
      var username := Param(path, ReposPrefix);
      if IsValidUsername(username) then CallRepos(username) else BadRequest(InvalidUsername)
    else NotFound
  }

  /** No path starts with two of the three prefixes, so the order of the tests does not matter. */
  lemma PrefixesDisjoint(path: string)
    ensures !(StartsWith(path, UserPrefix) && StartsWith(path, RepoPrefix))
    ensures !(StartsWith(path, UserPrefix) && StartsWith(path, ReposPrefix))
    ensures !(StartsWith(path, RepoPrefix) && StartsWith(path, ReposPrefix))
  {
    assert StartsWith(path, RepoPrefix) ==> path[5] == RepoPrefix[5] == '/';
    assert StartsWith(path, ReposPrefix) ==> path[5] == ReposPrefix[5] == 's';
  }

  /** A path that is exactly a prefix has an empty parameter and is rejected. */
  lemma BarePrefixRejected()
    ensures Route(UserPrefix) == BadRequest(InvalidUsername)
    ensures Route(RepoPrefix) == BadRequest(InvalidRepoPath)
    ensures Route(ReposPrefix) == BadRequest(InvalidUsername)
  {
    assert UserPrefix[|UserPrefix|..] == "";
    ParamIsRest(UserPrefix, UserPrefix);
    assert RepoPrefix[|RepoPrefix|..] == "";
    ParamIsRest(RepoPrefix, RepoPrefix);
    assert ReposPrefix[|ReposPrefix|..] == "";
    ParamIsRest(ReposPrefix, ReposPrefix);
    PrefixesDisjoint(ReposPrefix);
  }

  /** The request `fetch` sends upstream, if it sends one */
  function Outbound(path: string, env: Env): (o: Option<Request>)
    ensures o.None? <==> !(Route(path).CallUser? || Route(path).CallRepo? || Route(path).CallRepos?)
  {
    match Route(path)
    case CallUser(username) => Some(UserRequest(username, env))
    case CallRepo(repoPath) => Some(RepoRequest(repoPath, env))
    case CallRepos(username) => Some(UserReposRequest(username, env))
    case _ => None
  }

  const HtmlHeaders: Headers := map["Content-Type" := "text/html;charset=UTF-8"]

  /** `fetch(request, env)` for a request whose URL has the given path */
  function Fetch(path: string, env: Env, github: Request -> Upstream, engine: Thrown -> string): (r: Response)
    ensures path == "/" ==> r == Response(200, HtmlHeaders, HomePage)
    ensures Route(path).BadRequest? ==> r == Response(400, map[], Text(Route(path).message))
    ensures Route(path) == NotFound ==> r == Response(404, map[], Text("Not Found"))
    ensures Route(path).CallUser? ==> r == GetGitHubUser(Route(path).username, env, github, engine)
    ensures Route(path).CallRepo? ==> r == GetGitHubRepo(Route(path).repoPath, env, github, engine)
    ensures Route(path).CallRepos? ==> r == GetGitHubUserRepos(Route(path).username, env, github, engine)
    ensures Outbound(path, env).None? ==> r.status in {200, 400, 404} && !IsJson(r.body)
    ensures IsJson(r.body) ==> Outbound(path, env).Some? && r.status == 200 && r.headers == JsonHeaders
    ensures 200 <= r.status <= 599 && r.status !in NullBodyStatuses
  {
    match Route(path)
    case Home => Response(200, HtmlHeaders, HomePage)
    case BadRequest(message) => Response(400, map[], Text(message))
    case CallUser(username) => GetGitHubUser(username, env, github, engine)
    case CallRepo(repoPath) => GetGitHubRepo(repoPath, env, github, engine)
    case CallRepos(username) => GetGitHubUserRepos(username, env, github, engine)
    case NotFound => Response(404, map[], Text("Not Found"))
  }

  /**
   * The answer depends on the upstream only through the one request `Outbound` names: with no
   * outbound request (home page, 400, 404) the upstream is never consulted.
   */
  lemma FetchConsultsOnlyOutbound(path: string, env: Env, g1: Request -> Upstream, g2: Request -> Upstream,
                                  engine: Thrown -> string)
    requires Outbound(path, env).Some? ==> g1(Outbound(path, env).value) == g2(Outbound(path, env).value)
    ensures Fetch(path, env, g1, engine) == Fetch(path, env, g2, engine)
  {
  }

  /** The outbound URL holds the validated parameter verbatim, and the GitHub headers. */
  lemma OutboundRequestShape(path: string, env: Env)
    requires Outbound(path, env).Some?
    ensures var req := Outbound(path, env).value;
      && req.headers == GitHubHeaders(env)
      && (StartsWith(path, UserPrefix) ==>
            req.url == UsersBase + Param(path, UserPrefix) && IsValidUsername(Param(path, UserPrefix)))
      && (StartsWith(path, RepoPrefix) ==>
            req.url == ReposBase + Param(path, RepoPrefix) && IsValidRepoPath(Param(path, RepoPrefix)))
      && (StartsWith(path, ReposPrefix) ==>
            req.url == UsersBase + Param(path, ReposPrefix) + ReposQuery && IsValidUsername(Param(path, ReposPrefix)))
  {
    PrefixesDisjoint(path);
  }

  /** A path served without an upstream call answers with status 200, 400 or 404, each for its own decision. */
  lemma FetchWithoutUpstream(path: string, env: Env, github: Request -> Upstream, engine: Thrown -> string)
    requires Outbound(path, env).None?
    ensures var r := Fetch(path, env, github, engine);
      && r.status in {200, 400, 404}
      && (r.status == 200 <==> Route(path) == Home)
      && (r.status == 400 <==> Route(path).BadRequest?)
      && (r.status == 404 <==> Route(path) == NotFound)
      && (r.status == 404 ==> r.body == Text("Not Found"))
      && (r.status == 400 ==> r.body == Text(InvalidUsername) || r.body == Text(InvalidRepoPath))
  {
  }
}
