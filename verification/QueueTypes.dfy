/** Queue statuses as the store keeps them: text, decoded on every read. */
module QueueTypes {

  datatype QueueItemStatus =
    | Pending | Waiting | Starting | Running | Stopping | Stopped | Paused
    | Success | Failed | Blocked
    | Unknown(text: string)
  {
    predicate IsTerminal() {
      Success? || Failed? || Blocked?
    }

    predicate IsFailedOrBlocked() {
      Failed? || Blocked?
    }

    function AsStr(): string {
      match this
      case Pending => "pending"
      case Waiting => "waiting"
      case Starting => "starting"
      case Running => "running"
      case Stopping => "stopping"
      case Stopped => "stopped"
      case Paused => "paused"
      case Success => "success"
      case Failed => "failed"
      case Blocked => "blocked"
      case Unknown(text) => text
    }
  }

  function ItemStatusFromDb(text: string): QueueItemStatus {
    if text == "pending" then Pending
    else if text == "waiting" then Waiting
    else if text == "starting" then Starting
    else if text == "running" then Running
    else if text == "stopping" then Stopping
    else if text == "stopped" then Stopped
    else if text == "paused" then Paused
    else if text == "success" then Success
    else if text == "failed" then Failed
    else if text == "blocked" then Blocked
    else Unknown(text)
  }

  /** The SQL filter `status in ('success', 'failed', 'blocked')`. */
  predicate SqlTerminal(text: string) {
    text == "success" || text == "failed" || text == "blocked"
  }

  /** Decoding then encoding loses no status text, and the SQL terminal filter
      and the Rust terminal predicate select the same rows. */
  lemma StatusTextAgrees(text: string)
    ensures ItemStatusFromDb(text).AsStr() == text
    ensures SqlTerminal(text) <==> ItemStatusFromDb(text).IsTerminal()
  {
  }
}
