/**
 * The uptime check (src/health/checkers.rs). The wall-clock instant and the
 * RFC 3339 rendering of it are inputs: `render` stands for chrono's
 * rendering with seconds precision and a `Z` offset (section 5.6 of
 * RFC 3339), and `elapsed` for the floating-point seconds since start, as
 * text.
 */
module HealthCheckers {
  import opened Options
  import opened HealthModels
  import opened HealthEnvelope

  /** A UTC instant, kept abstract: only its rendering is observed. */
  datatype DateTime = DateTime(unixSeconds: int, nanoseconds: nat)

  /**
   * The uptime check: a passing "system" component whose observed value is
   * the elapsed time in seconds ("s") and whose time is the rendered `now`;
   * every other member is absent.
   */
  function UptimeChecker(now: DateTime, render: DateTime -> string, elapsed: string): (c: Check)
    ensures c.status == Some("pass") && LevelOf(c) == Pass
    ensures c.componentType == Some("system")
    ensures c.observedUnit == Some("s")
    ensures c.observedValue == Some(elapsed)
    ensures c.time == Some(render(now))
    ensures c.componentId.None? && c.affectedEndpoints.None? && c.output.None?
    ensures c.links.None? && c.additionalKeys.None?
  {
    Check(
      componentId := None,
      componentType := Some("system"),
      observedValue := Some(elapsed),
      observedUnit := Some("s"),
      status := Some("pass"),
      affectedEndpoints := None,
      time := Some(render(now)),
      output := None,
      links := None,
      additionalKeys := None
    )
  }
}
