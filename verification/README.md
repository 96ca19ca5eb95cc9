# rust-kata-002: a Dafny model of the health report, dependency graph and metrics middleware

rust-kata-002 is a small HTTP service. It proxies a crates.io-like package
registry, shows a one-level dependency graph of a crate version, serves
health reports and counts requests for Prometheus. This project models the
service's pure logic as immutable Dafny datatypes and functions, and proves
properties about them:

- **Health report** (`HealthModels`, `HealthEnvelope`, `HealthFold`,
  `HealthCheckers`, `HealthGet`). Check statuses are combined into the report
  status with the precedence fail > warn > pass. The report envelope has
  fixed members. There is the uptime check and the `GET /health` handler.
  Member names and status values follow the Health Check Response Format for
  HTTP APIs (draft-inadarei-api-health-check): section 3 for the report,
  section 3.1 for `status`, section 4 for the checks object. `HealthFold`
  defines the status a second, independent way: as the join of all check
  levels. It proves that this join equals `Status` for any order in which
  the map's keys are visited, that reordering a list does not change the
  status, and that pushing a check joins that check's level into the status.
- **Dependency graph** (`CrateRegistry`, `DependencyGraphModels`,
  `DependencyGraphEndpoints`, `DependencyGraphStub`). The query is validated.
  The registry's dependency list becomes one root node with one edge per
  dependency, kept in order. There is also the older stub handler, which
  returns a fixed graph.
- **Metrics middleware** (`ObservabilityMiddleware`). The exclusion
  configuration has a builder. Each request is either excluded or counted,
  and the contracts say exactly which counters change.

Foreign code and inputs the program does not compute are passed in as
function parameters:

- `matches(pattern, path)` and `valid(patterns)` stand for the regex library.
- `render(now)` stands for chrono's RFC 3339 rendering.
- `fetch(name, version)` stands for the registry client.
- `service(request)` stands for the downstream handler.
- `elapsed` is the uptime text.

Where the source is inconsistent with itself, the model follows the handlers and their tests:

- `src/dependency_graph/models.rs` declares `QueryParams` fields as
  `Option<String>`. But `src/dependency_graph/endpoints.rs` passes them on as
  plain strings, and the endpoint's tests expect a 400 with code `"query"` and
  `missing field \`name\`` / `missing field \`version\``. `ParseQuery` follows
  the handler and its tests: both fields are required, and `name` is reported
  first.
- In `src/observability/middleware.rs:92-93` the middleware calls
  `http_request_counter` and `http_response_duration`. The functions in
  `src/observability/metrics.rs` are named `http_request_count` and
  `http_response_duration_seconds`. The counters are modelled by their evident
  intent: a request counter per path and a response counter per (path,
  status).
- On a registry failure the endpoint calls `unwrap` and the request task
  aborts. The model makes that an explicit `Aborted` response.

## Model

| member | source | states |
|---|---|---|
| HealthEnvelope.LevelOf | src/health/envelope.rs:19-32 | a check counts as fail exactly when its status is `Some("fail")`, and as warn exactly when it is `Some("warn")`; a missing or unknown status counts as pass |
| HealthEnvelope.Status | src/health/envelope.rs:18-38 | the result is always "pass", "warn" or "fail". Its level is at least that of every check in every list, and it is either "pass" or the level of some actual check. So it is the maximum under pass < warn < fail: any fail gives "fail"; otherwise any warn gives "warn"; otherwise "pass", including for an empty map, `None` statuses and unknown strings |
| HealthEnvelope.MajorComponent | src/health/envelope.rs:7-8 | the major version is the prefix of the full version up to its first dot, and contains no dot |
| HealthEnvelope.Envelope | src/health/envelope.rs:4-16 | the report stores the checks map unchanged and its status is the aggregate of that map. `version` is the major version "0" of release "0.1.0". The description is the fixed service text. notes, output, links and serviceId are absent |
| HealthEnvelope.Push | src/health/routes/get.rs:12-15 | `entry(key).or_insert(vec![]).push(check)` appends the check to the list under `key`, creating the list if needed, and leaves every other list unchanged |
| HealthFold.Join | src/health/envelope.rs:24-37 | the join of two levels is one of them and an upper bound of both |
| HealthFold.JoinAll | src/health/envelope.rs:19-35 | folding a list gives an upper bound of every check's level that is pass or the level of one of the checks |
| HealthFold.SameMembersSameJoin | src/health/envelope.rs:20-22 | two lists with the same members give the same status, whatever their multiplicities |
| HealthFold.JoinAllIgnoresOrder | src/health/envelope.rs:20-22 | reordering a list of checks does not change its status |
| HealthFold.StatusIsFoldInAnyKeyOrder | src/health/envelope.rs:19-32 | for every enumeration of the map's keys, folding the concatenated lists gives exactly the level of `Status`. The result does not depend on key order, grouping or list order |
| HealthFold.PushJoinsLevel | src/health/envelope.rs:18-38 | after a check is pushed onto any list, the status is the join of the previous status and the new check's level |
| HealthFold.PushNeverLowers | src/health/envelope.rs:18-38 | adding a check never lowers the status |
| HealthCheckers.UptimeChecker | src/health/checkers.rs:5-18 | the uptime check always passes. It is of type "system" with unit "s". Its observed value is always present. Its time is the rendering of `now`. componentId, affectedEndpoints, output, links and additionalKeys are absent |
| HealthGet.Get | src/health/routes/get.rs:8-20 | the response is 200 with content type "application/health+json". The checks map has exactly the key "uptime", whose list is exactly the uptime check. The report status is always "pass". The body is exactly the envelope of that map, so version "0", release "0.1.0", the service description and absent notes, output, links and serviceId carry over |
| DependencyGraphEndpoints.ParseQuery | src/interfaces/http.rs:14-24 | a query is accepted exactly when both name and version are present, and the accepted pair gives back the query. A missing name is rejected with code "query" and "missing field \`name\`" whatever the version is. A missing version alone is rejected with "missing field \`version\`" |
| DependencyGraphEndpoints.EdgesOf | src/dependency_graph/endpoints.rs:23-34 | one edge per dependency, with the same index. Edge i has relationship = kind of dependency i, node name = its crate_id, node version = its literal req, and no edges of its own |
| DependencyGraphEndpoints.BuildGraph | src/dependency_graph/endpoints.rs:23-42 | the result has exactly one root, with the queried name and version. Reading (crate, requirement, kind) back off its edges gives the dependencies' own triples in order. The graph is at most one level deep |
| DependencyGraphEndpoints.OnlyKeysMatter | src/dependency_graph/endpoints.rs:26-33 | dependency lists that agree on crate_id, req and kind give the same graph. id, version_id, optional, default_features, features, target and downloads are ignored |
| DependencyGraphEndpoints.Query | src/dependency_graph/endpoints.rs:14-43 | the result is a 400 exactly when name or version is missing, and then the code is "query". Otherwise the registry's list becomes the graph, or a registry failure aborts the request |
| DependencyGraphEndpoints.QueryExample | tests/dependency_graph_query.rs:52-132 | the tests' two dependencies (crate-a dev, crate-b normal) give exactly the expected one-root graph |
| DependencyGraphStub.StubQuery | src/dependency_graph/routes/query.rs:4-62 | the result is BadRequest exactly when name or version is missing. Otherwise there are two roots: the first carries the query's name and version, and the second is the "name"/"version" placeholder. Each root has exactly a "dependency" edge and then a "dev-dependency" edge to placeholder leaves |
| DependencyGraphStub.StubIgnoresInputBeyondRoot | src/dependency_graph/routes/query.rs:14-60 | two accepted queries give the same graph apart from the first root's name and version |
| ObservabilityMiddleware.New | src/observability/middleware.rs:17-22 | starts with no exact paths and no patterns |
| ObservabilityMiddleware.Default | src/observability/middleware.rs:37-44 | starts with no exact paths and no patterns |
| ObservabilityMiddleware.Exclude | src/observability/middleware.rs:24-27 | adds the path to the exact set and leaves the pattern list unchanged |
| ObservabilityMiddleware.ExcludeRegex | src/observability/middleware.rs:29-34 | appends the pattern after the existing ones, in order, and leaves the exact set unchanged. The extended list must compile as one set |
| ObservabilityMiddleware.IsExcluded | src/observability/middleware.rs:89 | a path is excluded exactly when it is in the exact set or at least one pattern matches it |
| ObservabilityMiddleware.AnyMatch | src/observability/middleware.rs:89 | the pattern set matches a path exactly when at least one of its patterns does |
| ObservabilityMiddleware.FreshExcludesNothing | src/observability/middleware.rs:17-44 | `New` and `Default` give the same configuration, and it excludes no path |
| ObservabilityMiddleware.ExcludeAddsPath | src/observability/middleware.rs:24-27 | after `Exclude(p)`, a path is excluded exactly when it was excluded before or is `p` |
| ObservabilityMiddleware.ExcludeRegexAddsMatches | src/observability/middleware.rs:29-34 | after `ExcludeRegex(p)`, a path is excluded exactly when it was excluded before or `p` matches it |
| ObservabilityMiddleware.BuilderIsMonotone | src/observability/middleware.rs:24-34 | a path excluded before a builder call is still excluded after it |
| ObservabilityMiddleware.Increment | src/observability/metrics.rs:45-47 | increments one counter by exactly one and leaves every other counter unchanged |
| ObservabilityMiddleware.RecordRequest | src/observability/middleware.rs:92 | before the downstream call, only the path's request counter changes, and it goes up by one |
| ObservabilityMiddleware.Call | src/observability/middleware.rs:86-106 | the downstream result is returned unchanged. For an excluded path no counter changes. Otherwise the path's request counter goes up by one, and the (path, status) response counter goes up by one when there is a response. No other counter changes |
| ObservabilityMiddleware.RequestCountMatchesTrace | src/observability/middleware.rs:86-101 | over any run of requests, a path's request counter grows by the number of requests for that path, or stays the same if the path is excluded |
| ObservabilityMiddleware.ExcludedPathNeverCounted | src/observability/middleware.rs:89-90 | over any run of requests, no counter labelled with an excluded path ever changes |

## Left out

- The crates.io client (`src/crates_io.rs`, `src/crates_io/`): outbound HTTP. Its dependency list is the `fetch` parameter of `DependencyGraphEndpoints.Query`. The `get_crate` response records and the proxy endpoints (`src/proxy/endpoints.rs`) only pass the client's data through.
- Regular-expression semantics and pattern compilation (`RegexSet`): they come from a foreign library. They are the `matches` and `valid` parameters.
- RFC 3339 rendering of the check time (chrono, section 5.6 of RFC 3339, seconds precision, `Z` offset): it comes from a foreign library. It is the `render` parameter.
- The uptime observed value (`as_secs_f32().to_string()`): it depends on the wall clock and on floating point. It is the `elapsed` text parameter.
- Response-duration histograms and timers (`start_timer`, `observe_duration`): they depend on the wall clock. Only the two counters are modelled.
- Prometheus registration, text exposition (`src/observability/metrics.rs`, `src/observability/endpoints.rs`) and the concurrency of the process-wide registry. Requests are modelled one at a time.
- The wording of serde's error messages in general (`src/interfaces/http.rs`): only the two missing-field messages the endpoint's tests check are modelled.
- JSON (de)serialisation and `skip_serializing_if`: the model keeps `Option` members, not their omission on the wire.
- Liveness and readiness probes, route registration, environment variables and server start-up (`src/lib.rs`, `src/main.rs`, `src/health/routes.rs`, `src/health/routes/readiness.rs`): each probe is a constant empty 200, and the rest is wiring.
- `src/health/endpoints.rs`: a stale variant of `src/health/routes/get.rs` (its `get` at lines 14-26 calls `Health::envelope` instead of `envelope`) plus a constant probe; only the `routes/get.rs` handler is modelled, by `HealthGet.Get`.
- ObservabilityMiddleware.Increment: counters are unbounded; the 64-bit wrap-around of the Prometheus counter is not modelled, so "goes up by exactly one" in `Increment`, `RecordRequest`, `Call` and `RequestCountMatchesTrace` holds only below 2^64 in the running program.
- ObservabilityMiddleware.ExcludeRegex: requires `valid(patterns + [pattern])`, validity of the whole recompiled list, instead of modelling the panic when `RegexSet::new(...).unwrap()` fails to compile.
- HealthEnvelope.Envelope: the package version "0.1.0" and its major version "0" are constants taken from the envelope tests. The build manifest is not part of this model.
