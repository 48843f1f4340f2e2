/** Small result types shared by every module. */
module Outcomes {

  datatype Option<+T> = None | Some(value: T)

  /** How a handler ends: normally, with a Go error, or with a Go run-time panic. */
  datatype Outcome = Done | Failed | Panicked
}
