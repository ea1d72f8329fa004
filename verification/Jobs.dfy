/** What every part of the server says about a job. */
module Jobs {
  type JobId = nat

  datatype Status = Queued | Running | Done | Failed | Cancelled

  /** Nothing more happens to it. */
  predicate IsOver(status: Status) {
    status.Done? || status.Failed? || status.Cancelled?
  }
}
