/** Statuses of a generation row (src/oveo/models.py, src/oveo/generation.py). */
module GenerationStatus {

  datatype Option<+T> = None | Some(value: T)

  datatype Status = Queued | Running | Stopping | Completed | Failed | Stopped

  predicate IsTerminal(s: Status) {
    s.Completed? || s.Failed? || s.Stopped?
  }

  predicate IsActive(s: Status) {
    !IsTerminal(s)
  }
}
