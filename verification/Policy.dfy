/** Risk levels and action types of cleanup rules. */
module Policy {
  import opened Base

  datatype Risk = Low | Medium | High | Forbidden {
    /** The declaration order of the levels, which is the order they compare in. */
    function Rank(): (r: nat) {
      match this
      case Low => 0
      case Medium => 1
      case High => 2
      case Forbidden => 3
    }
  }

  function MaxRisk(a: Risk, b: Risk): Risk {
    if a.Rank() < b.Rank() then b else a
  }

  predicate RiskAllows(candidate: Risk, max: Risk) {
    candidate.Rank() <= max.Rank() && candidate != Forbidden
  }

  /** An action type as persisted; unknown text is kept but never executable. */
  datatype ActionType = ReportOnly | Trash | Quarantine | ToolNative | Unknown(text: Bytes)

  predicate RawFilesystemAction(a: ActionType) {
    a == Quarantine || a == Trash
  }
}
