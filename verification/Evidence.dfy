/** Evidence records, as far as releases and reports depend on them. */
module Evidence {
  import opened GoText

  datatype CellKey = CellKey(
    labId: string, requiredRunId: string, bindingId: string, claimId: string,
    implementationId: string, adapterId: string)

  // What an experiment's definition fixes in advance and a record must repeat.
  datatype Definition = Definition(
    workloadId: string, parameters: map<string, int>, faults: seq<(string, int, int)>,
    seed: int, deadline: int, hypothesis: string, limitations: seq<string>)

  datatype Measurement = Measurement(unit: string, value: int)

  datatype Assertion = Assertion(id: string, passed: bool, message: string)

  datatype Environment = Environment(goVersion: string, os: string, arch: string, cpu: string, logicalCpus: int)

  datatype Record = Record(
    id: string, runSetId: string, cell: CellKey, role: string, profile: string,
    definition: Definition, startedAt: int, eventsExecuted: int, status: string,
    inputDigest: string, environment: Environment, measurements: map<string, Measurement>,
    assertions: seq<Assertion>, conclusion: string, contentDigest: string)

  // Regular expressions, Unicode tables, JSON and SHA-256 stay behind these predicates; `text`
  // is what release.ValidateDynamicText accepts.
  datatype Rules = Rules(
    stableId: string -> bool,
    metricId: string -> bool,
    platformId: string -> bool,
    goVersion: string -> bool,
    evidenceId: string -> bool,
    runSetId: string -> bool,
    digest: string -> bool,
    text: string -> bool,
    sealed_: Record -> bool)

  predicate ValidProfile(profile: string) {
    profile == "smoke" || profile == "deep"
  }

  predicate ValidRole(role: string, implementationId: string, adapterId: string) {
    if role == "baseline" || role == "variant" then adapterId == ""
    else role == "adapter" && adapterId != "" && adapterId == implementationId
  }

  /** Six stable identities, the adapter's optional, and a role that fits them. */
  predicate ValidIdentity(rules: Rules, cell: CellKey, role: string) {
    && rules.stableId(cell.labId)
    && rules.stableId(cell.requiredRunId)
    && rules.stableId(cell.bindingId)
    && rules.stableId(cell.claimId)
    && rules.stableId(cell.implementationId)
    && (cell.adapterId == "" || rules.stableId(cell.adapterId))
    && ValidRole(role, cell.implementationId, cell.adapterId)
  }

  predicate ValidEnvironment(rules: Rules, e: Environment) {
    && rules.goVersion(e.goVersion)
    && e.cpu == "unknown"
    && rules.platformId(e.os) && rules.platformId(e.arch)
    && 0 < e.logicalCpus
  }

  predicate ValidMeasurement(rules: Rules, id: string, m: Measurement) {
    rules.metricId(id) && !Blank(m.unit) && Trimmed(m.unit)
  }

  predicate ValidAssertions(rules: Rules, assertions: seq<Assertion>, status: string) {
    && (forall a <- assertions :: rules.stableId(a.id) && (status == "passed" ==> a.passed))
    && (forall i, j :: 0 <= i < j < |assertions| ==> assertions[i].id != assertions[j].id)
  }

  /** What a record says is well formed. */
  predicate ValidContent(rules: Rules, r: Record) {
    && !Blank(r.definition.hypothesis) && !Blank(r.conclusion) && 0 < r.definition.deadline
    && (forall f <- r.definition.faults :: rules.stableId(f.0) && 0 <= f.1 && 0 <= f.2)
    && (forall id <- r.measurements :: ValidMeasurement(rules, id, r.measurements[id]))
    && ValidAssertions(rules, r.assertions, r.status)
    && (forall l <- r.definition.limitations :: !Blank(l))
    && ValidEnvironment(rules, r.environment)
  }

  /** evidence.Encode succeeds: the record is well formed and its seal is intact. */
  predicate Encodable(rules: Rules, r: Record) {
    && rules.digest(r.contentDigest)
    && rules.evidenceId(r.id)
    && rules.runSetId(r.runSetId)
    && ValidIdentity(rules, r.cell, r.role)
    && ValidProfile(r.profile)
    && rules.digest(r.inputDigest)
    && ValidContent(rules, r)
    && rules.sealed_(r)
  }

  /** Every text of the record may appear in a release. */
  predicate SafeText(rules: Rules, r: Record) {
    && rules.text(r.definition.hypothesis)
    && (forall key <- r.definition.parameters :: !Blank(key) && rules.text(key))
    && (forall id <- r.measurements :: rules.text(r.measurements[id].unit))
    && (forall a <- r.assertions :: rules.text(a.message))
    && rules.text(r.conclusion)
    && (forall l <- r.definition.limitations :: rules.text(l))
    && rules.text(r.environment.goVersion)
  }
}
