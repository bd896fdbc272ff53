/** How sites schedule people, and what an assignment to a site can be. */
module Staffing {

  datatype WorkMode = FullTimeOnly | ShiftOnly | FullTimeAndShift

  datatype Kind = FullTime | Shift

  datatype AssignmentStatus = DraftAssignment | Active | Suspended | Ended

  /** Whether a site's work mode admits an assignment of the kind. */
  predicate Admits(mode: WorkMode, kind: Kind) {
    match mode
    case FullTimeOnly => kind == FullTime
    case ShiftOnly => kind == Shift
    case FullTimeAndShift => true
  }
}
