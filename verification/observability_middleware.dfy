/**
 * The request-metrics middleware (src/observability/middleware.rs): a
 * path-exclusion configuration built at startup, and the per-request
 * decision to count or not. Regular expressions are abstract: `matches(p, s)`
 * says whether pattern `p` matches path `s`, and `valid(ps)` whether the
 * pattern list `ps` compiles into one set. The process-wide Prometheus
 * counters are a map from label to count; histograms and timing are not
 * modelled.
 */
module ObservabilityMiddleware {
  import opened Options

  /** The exclusion configuration: exact paths, and patterns in the order they were added. */
  datatype ExclusionConfig = ExclusionConfig(exact: set<string>, patterns: seq<string>)

  /** `ObservabilityMetrics::new`: nothing excluded. */
  function New(): (c: ExclusionConfig)
    ensures c.exact == {} && c.patterns == []
  {
    ExclusionConfig({}, [])
  }

  /** `ObservabilityMetrics::default`, the same empty configuration as `New`. */
  function Default(): (c: ExclusionConfig)
    ensures c.exact == {} && c.patterns == []
  {
    ExclusionConfig({}, [])
  }

  /** Adds one exact path; the patterns are untouched. */
  function Exclude(c: ExclusionConfig, path: string): (r: ExclusionConfig)
    ensures r.exact == c.exact + {path}
    ensures r.patterns == c.patterns
  {
    c.(exact := c.exact + {path})
  }

  /**
   * Appends one pattern after the existing ones; the exact set is
   * untouched. The whole list is recompiled into one set, and a list that
   * does not compile aborts the program, so callers must keep it valid.
   */
  function ExcludeRegex(c: ExclusionConfig, pattern: string, valid: seq<string> -> bool): (r: ExclusionConfig)
    requires valid(c.patterns + [pattern])
    ensures r.exact == c.exact
    ensures |r.patterns| == |c.patterns| + 1
    ensures r.patterns[..|c.patterns|] == c.patterns && r.patterns[|c.patterns|] == pattern
  {
    c.(patterns := c.patterns + [pattern])
  }

  /** Whether any of the patterns matches the path (`RegexSet::is_match`). */
  function AnyMatch(patterns: seq<string>, path: string, matches: (string, string) -> bool): (b: bool)
    ensures b <==> exists i :: 0 <= i < |patterns| && matches(patterns[i], path)
  {
    if |patterns| == 0 then false
    else matches(patterns[0], path) || AnyMatch(patterns[1..], path, matches)
  }

  /** A path is excluded when it is one of the exact paths or matches some pattern. */
  predicate IsExcluded(c: ExclusionConfig, path: string, matches: (string, string) -> bool)
    ensures IsExcluded(c, path, matches) <==>
      path in c.exact || exists i :: 0 <= i < |c.patterns| && matches(c.patterns[i], path)
  {
    path in c.exact || AnyMatch(c.patterns, path, matches)
  }

  /** A fresh configuration, from `New` or `Default`, excludes nothing. */
  lemma FreshExcludesNothing(path: string, matches: (string, string) -> bool)
    ensures New() == Default()
    ensures !IsExcluded(New(), path, matches)
  {
  }

  /** `Exclude(p)` excludes exactly `p` in addition to what was excluded. */
  lemma ExcludeAddsPath(c: ExclusionConfig, p: string, path: string, matches: (string, string) -> bool)
    ensures IsExcluded(Exclude(c, p), path, matches) <==> IsExcluded(c, path, matches) || path == p
  {
  }

  /** `ExcludeRegex(p)` excludes exactly the paths `p` matches in addition to what was excluded. */
  lemma {:induction false} ExcludeRegexAddsMatches(
    c: ExclusionConfig, p: string, valid: seq<string> -> bool, path: string, matches: (string, string) -> bool)
    requires valid(c.patterns + [p])
    ensures IsExcluded(ExcludeRegex(c, p, valid), path, matches) <==> IsExcluded(c, path, matches) || matches(p, path)
  {
    var r := ExcludeRegex(c, p, valid);
    if AnyMatch(c.patterns, path, matches) {
      var i :| 0 <= i < |c.patterns| && matches(c.patterns[i], path);
      assert r.patterns[i] == c.patterns[i];
    }
    if matches(p, path) {
      assert r.patterns[|c.patterns|] == p;
    }
    if AnyMatch(r.patterns, path, matches) {
      var i :| 0 <= i < |r.patterns| && matches(r.patterns[i], path);
      if i < |c.patterns| {
        assert r.patterns[i] == c.patterns[i];
      }
    }
  }

  /** Builder calls only ever add exclusions. */
  lemma BuilderIsMonotone(
    c: ExclusionConfig, p: string, valid: seq<string> -> bool, path: string, matches: (string, string) -> bool)
    requires valid(c.patterns + [p])
    requires IsExcluded(c, path, matches)
    ensures IsExcluded(Exclude(c, p), path, matches)
    ensures IsExcluded(ExcludeRegex(c, p, valid), path, matches)
  {
    ExcludeRegexAddsMatches(c, p, valid, path, matches);
  }

  /** A counter: requests by path, or responses by path and status code. */
  datatype Label = RequestCount(endpoint: string) | ResponseCount(endpoint: string, statusCode: nat)

  /** The values of all counters; a label never incremented reads as zero. */
  type Counters = map<Label, nat>

  function Count(m: Counters, l: Label): nat {
    if l in m then m[l] else 0
  }

  /** Adds one to a single counter. */
  function Increment(m: Counters, l: Label): (r: Counters)
    ensures Count(r, l) == Count(m, l) + 1
    ensures forall l' :: l' != l ==> Count(r, l') == Count(m, l')
  {
    m[l := Count(m, l) + 1]
  }

  datatype Request = Request(verb: string, path: string, query: string)
  datatype Response = Response(statusCode: nat, body: string)
  datatype ServiceError = ServiceError(message: string)

  /** What the wrapped service call yields, and the counters afterwards. */
  datatype Outcome = Outcome(result: Result<Response, ServiceError>, counters: Counters)

  /** The counting done before the downstream service is called: the request counter of the path. */
  function RecordRequest(m: Counters, path: string): (r: Counters)
    ensures Count(r, RequestCount(path)) == Count(m, RequestCount(path)) + 1
    ensures forall l :: l != RequestCount(path) ==> Count(r, l) == Count(m, l)
  {
    Increment(m, RequestCount(path))
  }

  /**
   * One request through the middleware. The downstream result is returned
   * unchanged. An excluded path changes no counter. Otherwise the request
   * counter of the path goes up by one before the call and, when the call
   * yields a response, the response counter of (path, status) goes up by
   * one after it; no other counter changes. A downstream error is passed on
   * without a response count.
   */
  function Call(
    c: ExclusionConfig, matches: (string, string) -> bool,
    service: Request -> Result<Response, ServiceError>, req: Request, m: Counters): (o: Outcome)
    ensures o.result == service(req)
    ensures IsExcluded(c, req.path, matches) ==> o.counters == m
    ensures !IsExcluded(c, req.path, matches) ==>
      Count(o.counters, RequestCount(req.path)) == Count(m, RequestCount(req.path)) + 1
    ensures !IsExcluded(c, req.path, matches) && o.result.Ok? ==>
      var l := ResponseCount(req.path, o.result.value.statusCode);
      Count(o.counters, l) == Count(m, l) + 1
    ensures forall l ::
      (l != RequestCount(req.path) && !(o.result.Ok? && l == ResponseCount(req.path, o.result.value.statusCode)))
      ==> Count(o.counters, l) == Count(m, l)
  {
    if IsExcluded(c, req.path, matches) then
      Outcome(service(req), m)
    else
      var counted := RecordRequest(m, req.path);
      match service(req)
      case Ok(response) =>
        Outcome(Ok(response), Increment(counted, ResponseCount(req.path, response.statusCode)))
      case Err(e) => Outcome(Err(e), counted)
  }

  /** The counters after serving a sequence of requests, one after another. */
  function Serve(
    c: ExclusionConfig, matches: (string, string) -> bool,
    service: Request -> Result<Response, ServiceError>, reqs: seq<Request>, m: Counters): Counters
  {
    if |reqs| == 0 then m
    else Serve(c, matches, service, reqs[1..], Call(c, matches, service, reqs[0], m).counters)
  }

  /** How many of the requests are for `path`. */
  function Occurrences(reqs: seq<Request>, path: string): nat {
    if |reqs| == 0 then 0
    else (if reqs[0].path == path then 1 else 0) + Occurrences(reqs[1..], path)
  }

  /**
   * Over any run of requests, the request counter of a path grows by the
   * number of requests for it, or not at all when the path is excluded.
   */
  lemma {:induction false} RequestCountMatchesTrace(
    c: ExclusionConfig, matches: (string, string) -> bool,
    service: Request -> Result<Response, ServiceError>, reqs: seq<Request>, m: Counters, path: string)
    ensures Count(Serve(c, matches, service, reqs, m), RequestCount(path))
      == Count(m, RequestCount(path)) + (if IsExcluded(c, path, matches) then 0 else Occurrences(reqs, path))
  {
    if |reqs| > 0 {
      var m1 := Call(c, matches, service, reqs[0], m).counters;
      RequestCountMatchesTrace(c, matches, service, reqs[1..], m1, path);
    }
  }

  /** Over any run of requests, no counter of an excluded path ever changes. */
  lemma {:induction false} ExcludedPathNeverCounted(
    c: ExclusionConfig, matches: (string, string) -> bool,
    service: Request -> Result<Response, ServiceError>, reqs: seq<Request>, m: Counters, l: Label)
    requires IsExcluded(c, l.endpoint, matches)
    ensures Count(Serve(c, matches, service, reqs, m), l) == Count(m, l)
  {
    if |reqs| > 0 {
      var m1 := Call(c, matches, service, reqs[0], m).counters;
      ExcludedPathNeverCounted(c, matches, service, reqs[1..], m1, l);
    }
  }
}
