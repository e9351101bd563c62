/**
  The already-parsed subset of a SARIF 2.1.0 document that the viewer reads
  (the objects Jackson builds from the JSON). Fields the viewer reads with
  Kotlin's `?.` or `?:` are optional; the others are present.
 */
module SarifSchema {
  import opened Options
  import Numbers

  /** `result.level`, written out by its `toString()`. */
  datatype Level = LevelNone | LevelNote | LevelWarning | LevelError {
    function Text(): string {
      match this
      case LevelNone => "none"
      case LevelNote => "note"
      case LevelWarning => "warning"
      case LevelError => "error"
    }
  }

  /** `result.kind`, written out by its `toString()`. */
  datatype Kind = NotApplicable | Pass | Fail | Review | Open | Informational {
    function Text(): string {
      match this
      case NotApplicable => "notApplicable"
      case Pass => "pass"
      case Fail => "fail"
      case Review => "review"
      case Open => "open"
      case Informational => "informational"
    }
  }

  /** A scalar JSON value in a property bag. */
  datatype JsonValue = JString(s: string) | JInt(n: int) | JBool(b: bool) | JNull {
    /** Kotlin's `value?.toString()`: None for a JSON null. */
    function Text(): Option<string> {
      match this
      case JString(s) => Some(s)
      case JInt(n) => Some(Numbers.ToDecimal(n))
      case JBool(b) => Some(if b then "true" else "false")
      case JNull => None
    }
  }

  /** `physicalLocation.artifactLocation.uri` and `physicalLocation.region.startLine`. */
  datatype PhysicalLocation = PhysicalLocation(uri: string, startLine: Option<int>)

  /** One step of a thread flow; its `location.physicalLocation`. */
  datatype ThreadFlowLocation = ThreadFlowLocation(location: PhysicalLocation)

  datatype ThreadFlow = ThreadFlow(locations: Option<seq<ThreadFlowLocation>>)

  datatype CodeFlow = CodeFlow(threadFlows: Option<seq<ThreadFlow>>)

  /** `result.rule`: a reference to a reporting descriptor. */
  datatype RuleReference = RuleReference(id: Option<string>)

  /** One SARIF result. `locations` stands for both a missing and an empty
      list: the viewer only ever reads `locations[0]`, which throws in both
      cases. `messageText` is `message.text`; `correlationGuid` is the GUID's
      text; `properties` is the property bag's additional properties. */
  datatype SarifResult = SarifResult(
    ruleId: Option<string>,
    rule: Option<RuleReference>,
    correlationGuid: Option<string>,
    messageText: Option<string>,
    locations: seq<PhysicalLocation>,
    codeFlows: Option<seq<CodeFlow>>,
    level: Option<Level>,
    kind: Option<Kind>,
    properties: Option<map<string, JsonValue>>)

  datatype Run = Run(results: Option<seq<SarifResult>>)

  /** A whole SARIF document (SarifSchema210). */
  datatype SarifLog = SarifLog(runs: Option<seq<Run>>)
}
