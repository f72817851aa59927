/** The call-status vocabulary (app/core/call_status.py). */
module CallStatus {
  const CONNECTED_STATUSES: set<string> := {"completed"}

  const NOT_CONNECTED_STATUSES: set<string> :=
    {"no-answer", "busy", "failed", "canceled", "cancelled", "stopped", "error", "balance-low"}

  const TERMINAL_STATUSES: set<string> := CONNECTED_STATUSES + NOT_CONNECTED_STATUSES

  predicate IsConnected(status: string) {
    status in CONNECTED_STATUSES
  }

  predicate IsTerminal(status: string) {
    status in CONNECTED_STATUSES || status in NOT_CONNECTED_STATUSES
  }
}
