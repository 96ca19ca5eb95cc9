/** The health report endpoint (src/health/routes/get.rs). */
module HealthGet {
  import opened HealthModels
  import opened HealthEnvelope
  import opened HealthCheckers

  const HealthContentType: string := "application/health+json"

  /** An HTTP response carrying a health report. */
  datatype HealthResponse = HealthResponse(statusCode: nat, contentType: string, body: Health)

  /**
   * The health report for the current instant: one "uptime" list holding
   * exactly the uptime check, wrapped by `Envelope`. Because that check
   * always passes, the report always passes.
   */
  function Get(now: DateTime, render: DateTime -> string, elapsed: string): (r: HealthResponse)
    ensures r.statusCode == 200 && r.contentType == HealthContentType
    ensures r.body.checks.Some? && r.body.checks.value.Keys == {"uptime"}
    ensures r.body.checks.Some? && r.body.checks.value["uptime"] == [UptimeChecker(now, render, elapsed)]
    ensures r.body.status == "pass"
    ensures r.body == Envelope(map["uptime" := [UptimeChecker(now, render, elapsed)]])
  {
    var checks := Push(map[], "uptime", UptimeChecker(now, render, elapsed));
    HealthResponse(200, HealthContentType, Envelope(checks))
  }
}
