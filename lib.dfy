/** The alert severities: a `StrEnum` of three members. */
module Lib {

  datatype AlertLevel = Notify | Filter | Error {
    /** The member's string value, which the member also compares equal to. */
    function Value(): string {
      match this
      case Notify => "notify"
      case Filter => "filter"
      case Error => "error"
    }
  }

  /** `list(AlertLevel)`: the members in declaration order. */
  const Levels: seq<AlertLevel> := [Notify, Filter, Error]

  /** Iteration visits every member exactly once. */
  lemma LevelsEnumerate(l: AlertLevel)
    ensures l in Levels
    ensures forall i, j :: 0 <= i < j < |Levels| ==> Levels[i] != Levels[j]
  {
  }

  /** Distinct members have distinct values, so a configuration key names at
      most one member. */
  lemma ValuesDistinct(l: AlertLevel, m: AlertLevel)
    ensures l.Value() == m.Value() ==> l == m
  {
  }
}
