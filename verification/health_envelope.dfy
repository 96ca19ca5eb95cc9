/**
 * Aggregation of check statuses into the report status, and the report
 * envelope (src/health/envelope.rs). Status values are those of section 3.1
 * of draft-inadarei-api-health-check: "pass", "warn" and "fail".
 */
module HealthEnvelope {
  import opened Options
  import opened HealthModels

  /** The three report statuses, ordered pass < warn < fail. */
  datatype Level = Pass | Warn | Fail

  function Rank(l: Level): nat {
    match l
    case Pass => 0
    case Warn => 1
    case Fail => 2
  }

  /** The precedence order of statuses. */
  predicate AtMost(a: Level, b: Level) {
    Rank(a) <= Rank(b)
  }

  /** The wire name of a level. */
  function Name(l: Level): string {
    match l
    case Pass => "pass"
    case Warn => "warn"
    case Fail => "fail"
  }

  predicate IsStatusName(s: string) {
    s == "pass" || s == "warn" || s == "fail"
  }

  /** Reads a status string back as a level; anything unrecognised counts as a pass. */
  function StatusLevel(s: string): (l: Level)
    ensures IsStatusName(s) ==> Name(l) == s
    ensures s != "fail" && s != "warn" ==> l == Pass
  {
    if s == "fail" then Fail else if s == "warn" then Warn else Pass
  }

  /**
   * The level a single check contributes: only `Some("fail")` and
   * `Some("warn")` are recognised; a missing status or any other string
   * never raises the report above "pass".
   */
  function LevelOf(c: Check): (l: Level)
    ensures l == Fail <==> c.status == Some("fail")
    ensures l == Warn <==> c.status == Some("warn")
  {
    match c.status
    case None => Pass
    case Some(s) => StatusLevel(s)
  }

  /** Some check in some list of `checks` carries exactly the status `s`. */
  predicate AnyCheckHas(checks: Checks, s: string) {
    exists k, c :: k in checks && c in checks[k] && c.status == Some(s)
  }

  /**
   * The report status: "fail" if any check fails, otherwise "warn" if any
   * check warns, otherwise "pass". The result is the greatest level among
   * all checks of all lists, and "pass" when there is none.
   */
  function Status(checks: Checks): (r: string)
    ensures IsStatusName(r)
    ensures forall k, c :: k in checks && c in checks[k] ==> AtMost(LevelOf(c), StatusLevel(r))
    ensures StatusLevel(r) == Pass || exists k, c :: k in checks && c in checks[k] && LevelOf(c) == StatusLevel(r)
  {
    if AnyCheckHas(checks, "fail") then
      assert exists k, c :: k in checks && c in checks[k] && c.status == Some("fail") && LevelOf(c) == Fail;
      "fail"
    else if AnyCheckHas(checks, "warn") then
      assert exists k, c :: k in checks && c in checks[k] && c.status == Some("warn") && LevelOf(c) == Warn;
      "warn"
    else "pass"
  }

  /** The package version the service is built as (CARGO_PKG_VERSION). */
  const PackageVersion: string := "0.1.0"

  const ServiceDescription: string := "health of rust-kata-002 service"

  /** The leading component of a dotted version string, that is, its major version. */
  function MajorComponent(v: string): (m: string)
    ensures m <= v
    ensures '.' !in m
    ensures |m| == |v| || v[|m|] == '.'
  {
    if |v| == 0 || v[0] == '.' then "" else [v[0]] + MajorComponent(v[1..])
  }

  /**
   * Wraps a checks map into a report: the map is stored unchanged, the
   * status is its aggregate, the version is the package's major version and
   * the release id its full version; every other optional member is absent.
   */
  function Envelope(checks: Checks): (h: Health)
    ensures h.checks == Some(checks)
    ensures h.status == Status(checks)
    ensures h.releaseId == Some(PackageVersion)
    ensures h.version == Some(MajorComponent(PackageVersion)) && h.version == Some("0")
    ensures h.description == Some(ServiceDescription)
    ensures h.notes.None? && h.output.None? && h.links.None? && h.serviceId.None?
  {
    assert MajorComponent("0") == "0";
    assert PackageVersion == "0" + ".1.0";
    Health(
      status := Status(checks),
      version := Some(MajorComponent(PackageVersion)),
      releaseId := Some(PackageVersion),
      notes := None,
      output := None,
      checks := Some(checks),
      links := None,
      serviceId := None,
      description := Some(ServiceDescription)
    )
  }

  /**
   * Appends a check to the list under `key`, creating the list when the key
   * is new (Rust's `entry(key).or_insert(vec![]).push(check)`). Every other
   * list is left as it was.
   */
  function Push(checks: Checks, key: string, check: Check): (r: Checks)
    ensures r.Keys == checks.Keys + {key}
    ensures key in checks ==> r[key] == checks[key] + [check]
    ensures key !in checks ==> r[key] == [check]
    ensures forall k :: k in checks && k != key ==> r[k] == checks[k]
  {
    checks[key := (if key in checks then checks[key] else []) + [check]]
  }
}
