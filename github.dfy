/**
 * The outbound side of the worker: the headers of every GitHub API request
 * (`getGitHubHeaders`), the URLs the three handlers build, and how each handler turns the
 * upstream outcome into the worker's response (`getGitHubUser`, `getGitHubRepo`,
 * `getGitHubUserRepos`). The network call itself is a parameter `github` from request to
 * outcome.
 */
module GitHub {
  import opened Wrappers
  import opened Strings
  import opened Payload

  /** The worker's environment; `GITHUB_TOKEN` may be unset. */
  datatype Env = Env(githubToken: Option<string>)

  type Headers = map<string, string>

  datatype Request = Request(url: string, headers: Headers)

  /** What `await response.json()` gives: a value, or the exception it throws. */
  datatype JsonOutcome = Parsed(value: Json) | Unparseable(message: string)

  /** What the awaited `fetch` gives: a response with its status, or the exception it throws. */
  datatype Upstream = Threw(message: string) | Responded(status: nat, json: JsonOutcome)

  /** The body the worker answers with; the home page's HTML is not modelled. */
  datatype Body =
    | Text(text: string)
    | HomePage
    | RecordBody(record: Record)
    | ListBody(records: seq<Record>)

  /** A `new Response(body, { status, headers })`; the status defaults to 200. */
  datatype Response = Response(status: nat, headers: Headers, body: Body)

  /** `response.ok`: the status is in the 2xx class */
  predicate IsOk(status: nat)
    ensures IsOk(status) <==> status / 100 == 2
  {
    200 <= status <= 299
  }

  const UserAgent := "Cloudflare-Worker"
  const AcceptV3 := "application/vnd.github.v3+json"

  /** `if (env.GITHUB_TOKEN)`: a string is truthy unless it is empty */
  predicate HasToken(env: Env)
    ensures HasToken(env) <==> env.githubToken != None && env.githubToken != Some("")
  {
    env.githubToken.Some? && env.githubToken.value != ""
  }

  /** `getGitHubHeaders(env)` */
  function GitHubHeaders(env: Env): (h: Headers)
    ensures h.Keys == {"User-Agent", "Accept"} + (if HasToken(env) then {"Authorization"} else {})
    ensures h["User-Agent"] == UserAgent && h["Accept"] == AcceptV3
    ensures "Authorization" in h <==> HasToken(env)
    ensures "Authorization" in h ==> h["Authorization"] == "Bearer " + env.githubToken.value
  {
    var headers := map["User-Agent" := UserAgent, "Accept" := AcceptV3];
    if HasToken(env) then headers["Authorization" := "Bearer " + env.githubToken.value] else headers
  }

  /** The token can be read back from the `Authorization` header, and only it depends on the token. */
  lemma AuthorizationRoundTrip(e1: Env, e2: Env)
    ensures "Authorization" in GitHubHeaders(e1) ==>
      GitHubHeaders(e1)["Authorization"][|"Bearer "|..] == e1.githubToken.value
    ensures GitHubHeaders(e1) - {"Authorization"} == GitHubHeaders(e2) - {"Authorization"}
  {
    var h1, h2 := GitHubHeaders(e1) - {"Authorization"}, GitHubHeaders(e2) - {"Authorization"};
    assert h1.Keys == h2.Keys;
  }

  // The upstream URLs

  const UsersBase := "https://api.github.com/users/"
  const ReposBase := "https://api.github.com/repos/"
  const ReposQuery := "/repos?sort=updated&per_page=10"

  /** `https://api.github.com/users/${username}` */
  function UserUrl(username: string): (url: string)
    ensures StartsWith(url, UsersBase) && url[|UsersBase|..] == username
  {
    UsersBase + username
  }

  /** `https://api.github.com/repos/${repoPath}` */
  function RepoUrl(repoPath: string): (url: string)
    ensures StartsWith(url, ReposBase) && url[|ReposBase|..] == repoPath
  {
    ReposBase + repoPath
  }

  /** `https://api.github.com/users/${username}/repos?sort=updated&per_page=10` */
  function UserReposUrl(username: string): (url: string)
    ensures StartsWith(url, UsersBase) && |url| == |UsersBase| + |username| + |ReposQuery|
    ensures url[|UsersBase|..|url| - |ReposQuery|] == username
    ensures url[|url| - |ReposQuery|..] == ReposQuery
  {
    UsersBase + username + ReposQuery
  }

  /** Each URL determines the parameter placed in it. */
  lemma UrlsInjective(a: string, b: string)
    ensures UserUrl(a) == UserUrl(b) ==> a == b
    ensures RepoUrl(a) == RepoUrl(b) ==> a == b
    ensures UserReposUrl(a) == UserReposUrl(b) ==> a == b
  {
    if UserReposUrl(a) == UserReposUrl(b) {
      var u := UserReposUrl(a);
      assert a == u[|UsersBase|..|u| - |ReposQuery|];
    }
  }

  // Error mapping and success shapes

  /** `{ 'Content-Type': 'application/json', 'Access-Control-Allow-Origin': '*' }` */
  const JsonHeaders: Headers := map["Content-Type" := "application/json", "Access-Control-Allow-Origin" := "*"]

  /** The three success shapes */
  datatype Shape = UserShape | RepoShape | RepoListShape

  /** `userInfo`, `repoInfo` or `repos`, built from the parsed payload */
  function Reshape(data: Json, shape: Shape): (r: Result<Body, TypeFault>)
    ensures shape == UserShape ==>
      if data.Null? then r == Failure(ReadOfNull("login"))
      else r.Success? && r.value.RecordBody? && Projects(r.value.record, data, UserFields)
    ensures shape == RepoShape ==>
      if data.Null? then r == Failure(ReadOfNull("name"))
      else r.Success? && r.value.RecordBody? && Projects(r.value.record, data, RepoFields)
    ensures shape == RepoListShape ==>
      (r.Success? <==> data.Array? && forall i :: 0 <= i < |data.items| ==> !data.items[i].Null?)
    ensures shape == RepoListShape && r.Success? ==>
      && r.value.ListBody? && |r.value.records| == |data.items|
      && forall i :: 0 <= i < |data.items| ==> Projects(r.value.records[i], data.items[i], RepoListFields)
    ensures shape == RepoListShape && r.Failure? ==>
      r.error == (if data.Null? then ReadOfNull("map") else if data.Array? then ReadOfNull("name") else MapNotAFunction)
  {
    match shape
    case UserShape =>
      (match Project(data, UserFields) case Success(rec) => Success(RecordBody(rec)) case Failure(f) => Failure(f))
    case RepoShape =>
      (match Project(data, RepoFields) case Success(rec) => Success(RecordBody(rec)) case Failure(f) => Failure(f))
    case RepoListShape =>
      (match ProjectList(data, RepoListFields) case Success(recs) => Success(ListBody(recs)) case Failure(f) => Failure(f))
  }

  predicate IsJson(b: Body) {
    b.RecordBody? || b.ListBody?
  }

  /** What a handler's `catch` can receive from code the worker runs itself */
  datatype Thrown =
    | Reshaping(fault: TypeFault)    // a TypeError while building the reply object
    | StatusOutOfRange(status: nat)  // RangeError: `new Response` with a status outside 200..599
    | NullBodyStatus(status: nat)    // TypeError: `new Response` with a body and a null-body status

  /**
   * The null-body statuses of the Fetch Standard (its section "Statuses"): a `Response` with
   * one of them cannot carry a body.
   */
  const NullBodyStatuses: set<nat> := {101, 103, 204, 205, 304}

  /** `new Response(`Error: ${error.message}`, { status: 500 })` */
  function ServerError(message: string): Response {
    Response(500, map[], Text("Error: " + message))
  }

  /**
   * `new Response(`GitHub API Error: ${response.status}`, { status: response.status })`. The
   * constructor checks its status first (the steps "initialize a response" of the Response
   * class in the Fetch Standard): outside 200..599 it throws a RangeError, and with a null-body status it throws
   * a TypeError because a body is given. Either is caught and becomes a 500.
   */
  function ForwardStatus(status: nat, engine: Thrown -> string): (r: Response)
    ensures 200 <= status <= 599 && status !in NullBodyStatuses ==>
      r == Response(status, map[], Text("GitHub API Error: " + Decimal(status)))
    ensures status < 200 || 599 < status ==> r == ServerError(engine(StatusOutOfRange(status)))
    ensures 200 <= status <= 599 && status in NullBodyStatuses ==> r == ServerError(engine(NullBodyStatus(status)))
    ensures r.headers == map[] && r.body.Text?
    ensures 200 <= r.status <= 599 && r.status !in NullBodyStatuses
  {
    if status < 200 || 599 < status then ServerError(engine(StatusOutOfRange(status)))
    else if status in NullBodyStatuses then ServerError(engine(NullBodyStatus(status)))
    else Response(status, map[], Text("GitHub API Error: " + Decimal(status)))
  }

  /** A status that is not ok and that `ForwardStatus` passes on unchanged */
  predicate Forwardable(status: nat)
    ensures Forwardable(status) <==> 300 <= status <= 599 && status != 304
  {
    !IsOk(status) && 200 <= status <= 599 && status !in NullBodyStatuses
  }

  /**
   * The body of the `try`/`catch` shared by the three handlers, after the `fetch`:
   * exceptions become 500, a response that is not ok has its status forwarded, and an ok
   * response is reshaped. `engine` gives the wording of a thrown error's message.
   */
  function Reply(u: Upstream, shape: Shape, engine: Thrown -> string): (r: Response)
    ensures u.Threw? ==> r == ServerError(u.message)
    ensures u.Responded? && Forwardable(u.status) ==>
      r == Response(u.status, map[], Text("GitHub API Error: " + Decimal(u.status)))
    ensures u.Responded? && !IsOk(u.status) && !Forwardable(u.status) ==>
      r == ServerError(engine(if u.status == 304 then NullBodyStatus(304) else StatusOutOfRange(u.status)))
    ensures u.Responded? && IsOk(u.status) && u.json.Unparseable? ==> r == ServerError(u.json.message)
    ensures u.Responded? && IsOk(u.status) && u.json.Parsed? && Reshape(u.json.value, shape).Failure? ==>
      r == ServerError(engine(Reshaping(Reshape(u.json.value, shape).error)))
    ensures IsJson(r.body) <==> r.status == 200
    ensures IsJson(r.body) <==>
      u.Responded? && IsOk(u.status) && u.json.Parsed? && Reshape(u.json.value, shape).Success?
    ensures IsJson(r.body) ==> r.headers == JsonHeaders && r.body == Reshape(u.json.value, shape).value
    ensures !IsJson(r.body) ==> r.headers == map[] && r.body.Text?
    ensures 200 <= r.status <= 599 && r.status !in NullBodyStatuses
  {
    match u
    case Threw(m) => ServerError(m)
    case Responded(status, json) =>
      if !IsOk(status) then ForwardStatus(status, engine)
      else
        match json
        case Unparseable(m) => ServerError(m)
        case Parsed(data) =>
          match Reshape(data, shape)
          case Failure(f) => ServerError(engine(Reshaping(f)))
          case Success(body) => Response(200, JsonHeaders, body)
  }

  /** The request `getGitHubUser` sends */
  function UserRequest(username: string, env: Env): Request {
    Request(UserUrl(username), GitHubHeaders(env))
  }

  function RepoRequest(repoPath: string, env: Env): Request {
    Request(RepoUrl(repoPath), GitHubHeaders(env))
  }

  function UserReposRequest(username: string, env: Env): Request {
    Request(UserReposUrl(username), GitHubHeaders(env))
  }

  /** The upstream answered ok with a parsed payload */
  predicate ParsedOk(u: Upstream) {
    u.Responded? && IsOk(u.status) && u.json.Parsed?
  }

  /**
   * `getGitHubUser(username, env)`: 200 exactly for an ok, parsed, non-null payload, with the
   * nine user fields copied in order; a null payload fails at `data.login`.
   */
  function GetGitHubUser(username: string, env: Env, github: Request -> Upstream, engine: Thrown -> string): (r: Response)
    ensures var u := github(UserRequest(username, env));
      r.status == 200 <==> ParsedOk(u) && !u.json.value.Null?
    ensures var u := github(UserRequest(username, env));
      ParsedOk(u) && !u.json.value.Null? ==>
        r.headers == JsonHeaders && r.body.RecordBody? && Projects(r.body.record, u.json.value, UserFields)
    ensures var u := github(UserRequest(username, env));
      ParsedOk(u) && u.json.value.Null? ==> r == ServerError(engine(Reshaping(ReadOfNull("login"))))
  {
    Reply(github(UserRequest(username, env)), UserShape, engine)
  }

  /**
   * `getGitHubRepo(repoPath, env)`: 200 exactly for an ok, parsed, non-null payload, with the
   * ten repository fields copied in order; a null payload fails at `data.name`.
   */
  function GetGitHubRepo(repoPath: string, env: Env, github: Request -> Upstream, engine: Thrown -> string): (r: Response)
    ensures var u := github(RepoRequest(repoPath, env));
      r.status == 200 <==> ParsedOk(u) && !u.json.value.Null?
    ensures var u := github(RepoRequest(repoPath, env));
      ParsedOk(u) && !u.json.value.Null? ==>
        r.headers == JsonHeaders && r.body.RecordBody? && Projects(r.body.record, u.json.value, RepoFields)
    ensures var u := github(RepoRequest(repoPath, env));
      ParsedOk(u) && u.json.value.Null? ==> r == ServerError(engine(Reshaping(ReadOfNull("name"))))
  {
    Reply(github(RepoRequest(repoPath, env)), RepoShape, engine)
  }

  /**
   * `getGitHubUserRepos(username, env)`: 200 exactly for an ok, parsed array with no null
   * element, keeping length and order and cutting each element to six fields. `null.map`,
   * `map` on a non-array and a null element each throw.
   */
  function GetGitHubUserRepos(username: string, env: Env, github: Request -> Upstream, engine: Thrown -> string): (r: Response)
    ensures var u := github(UserReposRequest(username, env));
      r.status == 200 <==>
        ParsedOk(u) && u.json.value.Array? && forall i :: 0 <= i < |u.json.value.items| ==> !u.json.value.items[i].Null?
    ensures var u := github(UserReposRequest(username, env));
      r.status == 200 ==>
        && r.headers == JsonHeaders && r.body.ListBody? && |r.body.records| == |u.json.value.items|
        && forall i :: 0 <= i < |u.json.value.items| ==> Projects(r.body.records[i], u.json.value.items[i], RepoListFields)
    ensures var u := github(UserReposRequest(username, env));
      ParsedOk(u) && u.json.value.Null? ==> r == ServerError(engine(Reshaping(ReadOfNull("map"))))
    ensures var u := github(UserReposRequest(username, env));
      ParsedOk(u) && !u.json.value.Null? && !u.json.value.Array? ==> r == ServerError(engine(Reshaping(MapNotAFunction)))
    ensures var u := github(UserReposRequest(username, env));
      ParsedOk(u) && u.json.value.Array? && (exists i :: 0 <= i < |u.json.value.items| && u.json.value.items[i].Null?) ==>
        r == ServerError(engine(Reshaping(ReadOfNull("name"))))
  {
    Reply(github(UserReposRequest(username, env)), RepoListShape, engine)
  }
}
