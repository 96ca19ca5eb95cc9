/**
 * The health report and check records of the Health Check Response Format
 * for HTTP APIs (draft-inadarei-api-health-check, section 3 for the report
 * and section 4 for the checks object). Every optional JSON member is an
 * `Option`; JSON serialisation itself is not modelled.
 */
module HealthModels {
  import opened Options

  /** One entry of a checks list (section 4 of the draft). */
  datatype Check = Check(
    componentId: Option<string>,
    componentType: Option<string>,
    observedValue: Option<string>,
    observedUnit: Option<string>,
    status: Option<string>,
    affectedEndpoints: Option<seq<string>>,
    time: Option<string>,
    output: Option<string>,
    links: Option<map<string, string>>,
    additionalKeys: Option<map<string, string>>
  )

  /** The checks object: a key such as "uptime" mapped to its list of checks. */
  type Checks = map<string, seq<Check>>

  /** The top-level health report (section 3 of the draft). */
  datatype Health = Health(
    status: string,
    version: Option<string>,
    releaseId: Option<string>,
    notes: Option<string>,
    output: Option<string>,
    checks: Option<Checks>,
    links: Option<map<string, string>>,
    serviceId: Option<string>,
    description: Option<string>
  )
}
