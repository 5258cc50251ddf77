/** Recorded canonical lifecycle of an item, shared by the completion engine and the roll-ups. */
module HierarchyStatus {

  datatype Status =
    | Inbox
    | Planned
    | Scheduled
    | InProgress
    | Paused
    | Completed
    | Skipped
    | Cancelled
    | Blocked
  {
    predicate Open() {
      Inbox? || Planned? || Scheduled? || InProgress? || Paused? || Blocked?
    }
  }
}
