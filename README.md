# mycfworker GitHub proxy, modelled in Dafny

A model of the Cloudflare Worker in `src/index.js` that proxies a part of the GitHub REST
API. The worker routes a request path, validates the GitHub username or `owner/repo`
parameter with regular expressions, sends one request to `api.github.com` with fixed headers
and an optional bearer token, and cuts the JSON answer down to a fixed list of fields. An
exception becomes a 500, and a non-ok GitHub status is forwarded when the `Response`
constructor accepts it.

Modules, one per part of the worker:

- `Wrappers` (`wrappers.dfy`): `Option` and `Result`.
- `Strings` (`strings.dfy`): the JavaScript string operations the worker uses.
  These are `startsWith`, `indexOf`/`includes`, `split` on a non-empty separator (with its inverse `Join`), and `${n}` for a status code.
- `Validators` (`validators.dfy`): `isValidUsername`, `isValidRepoName`, `isValidRepoPath`.
  Each regular expression is a predicate shaped like the pattern, proved equal to a plain-words rule.
- `Payload` (`payload.dfy`): the upstream JSON value and the allow-list projections.
  Reading a field of `null`, or calling `data.map` on a non-array, is a TypeError.
- `GitHub` (`github.dfy`): `getGitHubHeaders`, the three upstream URLs, and the shared error mapping `Reply`.
  It also holds the three handlers, whose network call is the parameter `github: Request -> Upstream`.
  Forwarding a non-ok status goes through the `Response` constructor, which throws for some statuses (see `ForwardStatus`).
- `Worker` (`worker.dfy`): the routing of `fetch` as a `Decision`, the outbound request it causes, and the whole answer `Fetch`.

Behaviour of the code that is easy to miss; the model follows it:

- JSON answers carry `Content-Type: application/json`, without a charset (src/index.js:80).
- The route parameter is `path.split(prefix)[1]`. That is the text after the prefix only up to the next occurrence of the prefix, not the whole rest of the path. For example, `/user/octocat/user/x` asks for user `octocat`.
- The worker does not look at the HTTP method, and neither does the model.
- A non-ok GitHub status is not always forwarded. `new Response(body, { status })` throws a RangeError for a status outside 200..599 and a TypeError for 304, a null-body status that cannot carry the error text (the Fetch Standard, "initialize a response" in the Response class). The `catch` turns both into a 500.

## Model

| member | source | states |
|---|---|---|
| `Strings.StartsWith` | src/index.js:18 | `startsWith(prefix)` holds iff the prefix is no longer than the string and agrees with it position by position |
| `Strings.IndexOf` | src/index.js:321 | the first position where the substring occurs, with no earlier occurrence; `None` exactly when it occurs nowhere |
| `Strings.Includes` | src/index.js:321 | `includes(sub)` holds iff the substring occurs at some position |
| `Strings.Split` | src/index.js:331 | `split` gives at least one piece and no piece contains the separator |
| `Strings.Join` | src/index.js:331 | the joined string starts with the first piece, and the separator follows it when there is a second piece |
| `Strings.SplitJoin` | src/index.js:331 | joining the pieces of a split with the separator gives back the original string |
| `Strings.SplitCharInTwo` | src/index.js:331-333 | splitting on one character gives exactly two pieces iff the character occurs exactly once |
| `Strings.Decimal` | src/index.js:58 | the rendered status is a non-empty string of decimal digits with no leading zero |
| `Strings.DecimalRoundTrip` | src/index.js:58 | reading the rendered digits back as a number gives the status |
| `Strings.DecimalInjective` | src/index.js:58 | distinct statuses render as distinct texts |
| `Validators.AllInIff` | src/index.js:320 | the character-by-character class check holds iff every character is in the class |
| `Validators.Repeat` | src/index.js:320 | a bounded repetition `k{lo,hi}` matches iff the length is in bounds and every character is in the class |
| `Validators.UsernamePattern` | src/index.js:320 | the username pattern accepts exactly 1 to 39 characters of `[A-Za-z0-9-]` whose first and last are alphanumeric |
| `Validators.UsernameGroup` | src/index.js:320 | the optional group matches the empty string, or up to 38 characters of `[A-Za-z0-9-]` ending in an alphanumeric |
| `Validators.IncludesDoubleHyphen` | src/index.js:321 | `includes('--')` holds iff some hyphen is directly followed by another |
| `Validators.IsValidUsername` | src/index.js:315-322 | `isValidUsername` holds iff the length is 1 to 39, every character is an ASCII letter, digit or `-`, the first and last are not `-`, and there is no `--` |
| `Validators.RepoNamePattern` | src/index.js:350 | the repository-name pattern accepts exactly 1 to 100 characters of `[A-Za-z0-9._-]` |
| `Validators.IsValidRepoName` | src/index.js:344-352 | `isValidRepoName` holds iff the length is 1 to 100 and every character is an ASCII letter, digit, `.`, `_` or `-` |
| `Validators.NoSlashInNames` | src/index.js:320-350 | no valid username and no valid repository name contains `/` |
| `Validators.SplitIntoOwnerAndName` | src/index.js:331-338 | `split('/')` gives exactly a valid owner and a valid repository name iff some `/` has a valid username before it and a valid repository name after it |
| `Validators.IsValidRepoPath` | src/index.js:327-339 | `isValidRepoPath` holds iff the path is a valid username, one `/`, and a valid repository name |
| `Validators.EmptyRejected` | src/index.js:316-352 | the empty string is rejected by all three validators |
| `Validators.RepoPathHasOneSlash` | src/index.js:331-338 | an accepted repository path contains exactly one `/` |
| `Validators.NamesAreUrlSafe` | src/index.js:320-350 | a valid username or repository name contains no `?`, `#`, `%` or space |
| `Validators.ValidatedParamsAreUrlSafe` | src/index.js:53-137 | a validated username or repository path contains no `?`, `#`, `%` or space, so none of its characters ends the URL path or starts an escape in the upstream URL |
| `Payload.Lookup` | src/index.js:67-75 | a property of a non-null value is defined iff the value is an object with that member, and then it is the member's value |
| `Payload.Read` | src/index.js:67 | reading a property fails iff the value is null, with the property's name in the error; otherwise it is the `Lookup` |
| `Payload.Project` | src/index.js:66-76 | the projection has exactly the listed keys, in order, each value copied from the same-named upstream field (undefined if absent); it fails only on a null payload, at the first key |
| `Payload.ProjectEach` | src/index.js:152-159 | element-wise projection keeps length and order, fails iff some element is null, and then fails at the first key |
| `Payload.ProjectList` | src/index.js:152-159 | `data.map` succeeds iff the payload is an array with no null element, keeping length and order with the listed keys; null fails reading `map`, a non-array is not callable, a null element fails at the first key |
| `Payload.ProjectIgnoresUnlisted` | src/index.js:107-118 | two payloads that agree on the listed fields project identically; unlisted fields are dropped |
| `GitHub.IsOk` | src/index.js:57 | `response.ok` holds exactly for the 2xx statuses |
| `GitHub.HasToken` | src/index.js:182 | the token counts iff it is set and not the empty string |
| `GitHub.GitHubHeaders` | src/index.js:175-187 | the headers are `User-Agent: Cloudflare-Worker` and `Accept: application/vnd.github.v3+json`, plus `Authorization: Bearer <token>` exactly when the token is set and non-empty; no other keys |
| `GitHub.AuthorizationRoundTrip` | src/index.js:182-184 | the token reads back from the `Authorization` header, and all other headers are the same for every environment |
| `GitHub.UserUrl` | src/index.js:53 | the user URL is the API's `/users/` base followed by the username unchanged |
| `GitHub.RepoUrl` | src/index.js:94 | the repository URL is the API's `/repos/` base followed by the `owner/repo` path unchanged |
| `GitHub.UserReposUrl` | src/index.js:137 | the list URL is the `/users/` base, the username unchanged, then `/repos?sort=updated&per_page=10` |
| `GitHub.UrlsInjective` | src/index.js:53-137 | each of the three URLs determines the parameter placed in it |
| `GitHub.Reshape` | src/index.js:66-76 | the user and repository shapes fail exactly on a null payload, at `login` and `name`, and otherwise copy exactly their listed fields; the list shape succeeds iff the payload is an array without null elements, and otherwise fails at `map`, at `name`, or as not callable |
| `GitHub.ForwardStatus` | src/index.js:57-60 | a status in 200..599 that is not a null-body status is forwarded with body `GitHub API Error: <status>`; outside that range it is a RangeError, a null-body status a TypeError, each a 500; the answer's status is always in 200..599 and not a null-body status |
| `GitHub.Forwardable` | src/index.js:57-60 | the non-ok statuses that come back unchanged are exactly 300..599 except 304 |
| `GitHub.Reply` | src/index.js:52-86 | a thrown error and an unparseable payload give 500 `Error: <msg>`; a forwardable status `c` gives status `c` with body `GitHub API Error: c`, other non-ok statuses a 500 from the constructor's error; a reshaping failure gives 500 with the TypeError's message; a JSON body (with the JSON headers) comes exactly with status 200 and exactly when the upstream is ok, parses, and reshapes |
| `GitHub.GetGitHubUser` | src/index.js:51-87 | status 200 exactly for an ok, parsed, non-null payload, then with exactly the nine user fields in order copied from upstream; a null payload is a 500 from reading `login` |
| `GitHub.GetGitHubRepo` | src/index.js:92-129 | status 200 exactly for an ok, parsed, non-null payload, then with exactly the ten repository fields in order copied from upstream; a null payload is a 500 from reading `name` |
| `GitHub.GetGitHubUserRepos` | src/index.js:134-170 | status 200 exactly for an ok, parsed array with no null element, then a list of the same length and order with six fields each; null, a non-array, or a null element gives a 500 from the matching TypeError |
| `Worker.Param` | src/index.js:19 | `split(prefix)[1]` is a prefix of the text after the prefix, contains no occurrence of the prefix, has no occurrence of the prefix starting inside it, and ends at the end of the path or at the next occurrence |
| `Worker.ParamIsRest` | src/index.js:19 | when the prefix does not occur again, the parameter is the whole rest of the path |
| `Worker.PrefixesDisjoint` | src/index.js:18-36 | no path starts with two of `/user/`, `/repo/`, `/repos/` |
| `Worker.Route` | src/index.js:11-44 | `/` is the home page; each call happens exactly when its prefix matches and its validator accepts the parameter, and carries that parameter; each 400 exactly when the prefix matches and the validator rejects, with `Invalid repository path. Format: owner/repo` for `/repo/` and `Invalid username` otherwise; 404 exactly when nothing matches |
| `Worker.BarePrefixRejected` | src/index.js:18-41 | a path that is exactly `/user/`, `/repo/` or `/repos/` is rejected with 400 |
| `Worker.Outbound` | src/index.js:23-41 | an outbound request is made exactly when the route decided on an upstream call |
| `Worker.OutboundRequestShape` | src/index.js:18-41 | the outbound request carries the GitHub headers, and its URL is the route's base with the validated parameter placed verbatim |
| `Worker.Fetch` | src/index.js:7-45 | `/` gives 200 with the HTML content type and the home page; a rejected parameter gives 400 with the route's message; an unmatched path gives 404 `Not Found`; each call gives its handler's answer for the routed parameter; every status is in 200..599 and not a null-body status; a JSON body implies an upstream call and status 200 |
| `Worker.FetchConsultsOnlyOutbound` | src/index.js:7-45 | the answer depends on the upstream only through the single outbound request; with none, the upstream is never consulted |
| `Worker.FetchWithoutUpstream` | src/index.js:11-44 | without an upstream call, the status is 200 exactly for the home page, 400 exactly for a rejected parameter (with one of the two fixed messages) and 404 exactly for an unmatched path (with body `Not Found`) |

## Left out

- The network: the outbound `fetch` and its awaiting (src/index.js:53, 94, 136) are the parameter `github`, a function from request to outcome. Each request is answered independently, so concurrency is not modelled.
- `response.json()` is part of the upstream outcome (`Parsed` or `Unparseable` with the thrown message). JSON numbers are integers; floating point is not modelled.
- The wording of a thrown error's message belongs to the JavaScript engine. It is the parameter `engine`, applied to which error was thrown.
- URL parsing by `new URL` (src/index.js:8): the model starts from the `pathname` string. That string is already normalised: characters a path may not hold are percent-encoded and nothing is decoded, so `/user/%41` reaches the validator as `%41` and is rejected; `.` and `..` segments are resolved, so a repository name `.` or `..`, which `isValidRepoName` accepts, cannot arrive from a real request.
- `Response` construction by the runtime beyond its status checks: the default `text/plain` content type of string bodies is not modelled. Only the headers the source sets are.
- `JSON.stringify(..., null, 2)`: the body is the reshaped value. A field the upstream lacks is kept as `Undefined`; serialisation would drop it.
- Header names are compared exactly; HTTP's case-insensitive header matching is not modelled.
- `getHomePage` (src/index.js:192-308): static HTML, modelled as the single body `HomePage`.
- The `typeof ... !== 'string'` guards: every input of the model is a string.
