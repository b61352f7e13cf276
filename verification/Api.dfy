/** The API types that every other module shares: conditions, their statuses and severities. */
module Api {

  datatype Option<+T> = None | Some(value: T)

  type ConditionType = string

  /** A status is a string in the API; the four cases are the three named constants and any other value. */
  datatype Status = StatusTrue | StatusFalse | StatusUnknown | StatusOther(text: string)

  /** A severity is a string in the API; SeverityNone is the empty string. */
  datatype Severity =
    | SeverityError
    | SeverityWarning
    | SeverityInfo
    | SeverityNone
    | SeverityOther(text: string)

  /** Seconds since the zero time; 0 is the unset LastTransitionTime. */
  type Time = nat

  /** The fields of a condition, besides its type, that make up its state. */
  datatype State = State(status: Status, severity: Severity, reason: string, message: string)

  datatype Condition = Condition(typ: ConditionType, state: State, time: Time)

  const READY: ConditionType := "Ready"
  const VALID_SCHEMA: ConditionType := "ValidSchema"
  const VALID_CONFIG: ConditionType := "ValidConfig"
  const DEFAULTING_COMPLETE: ConditionType := "DefaultingComplete"
  const VALID_TARGET: ConditionType := "ValidTarget"
  const VALID_TEMPLATE: ConditionType := "ValidTemplate"
  const VALID_DEPENDENCY: ConditionType := "ValidDependency"
  const OUTPUT_RESOURCE_UPDATED: ConditionType := "OutputResourceUpdated"

  /** Two conditions have the same state when they agree on everything except the transition time. */
  predicate HasSameState(c: Condition, d: Condition) {
    c.typ == d.typ && c.state == d.state
  }

  /** The state of an optional condition: equality of states ignores the transition time only. */
  predicate SameState(c: Option<Condition>, d: Option<Condition>) {
    match (c, d)
    case (None, None) => true
    case (Some(x), Some(y)) => HasSameState(x, y)
    case _ => false
  }

  function TrueCondition(t: ConditionType): Condition {
    Condition(t, State(StatusTrue, SeverityNone, "", ""), 0)
  }

  /** The formatting of the message is the caller's; see `Summary` for messages used as formats. */
  function FalseCondition(t: ConditionType, reason: string, severity: Severity, message: string): Condition {
    Condition(t, State(StatusFalse, severity, reason, message), 0)
  }

  function UnknownCondition(t: ConditionType, reason: string, message: string): Condition {
    Condition(t, State(StatusUnknown, SeverityNone, reason, message), 0)
  }
}
