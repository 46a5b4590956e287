/** database/models.go: one row of the user_roles table. */
module Models {
  import opened Wrappers

  /**
   * renewal_status. The first four are the values UpdateRenewalStatus accepts;
   * RemoveUserRole also writes "changed".
   */
  datatype RenewalStatus = Pending | WaitingResponse | Confirmed | Rejected | Changed

  /** A grant of a role to a user. Instants are integer nanoseconds. */
  datatype UserRole = UserRole(
    id: int,
    userId: string,
    userName: string,
    roleId: string,
    roleName: string,
    createdAt: int,
    expiresAt: int,
    isActive: bool,
    renewalStatus: RenewalStatus,
    messageId: string)

  /** The text stored in the renewal_status column. */
  function StatusName(status: RenewalStatus): string
  {
    match status
    case Pending => "pending"
    case WaitingResponse => "waiting_response"
    case Confirmed => "confirmed"
    case Rejected => "rejected"
    case Changed => "changed"
  }

  /** UpdateRenewalStatus's table of valid statuses: "changed" is not among them. */
  function ParseStatus(s: string): (r: Option<RenewalStatus>)
    ensures r.Some? ==> StatusName(r.value) == s && r.value != Changed
  {
    if s == "pending" then Some(Pending)
    else if s == "waiting_response" then Some(WaitingResponse)
    else if s == "confirmed" then Some(Confirmed)
    else if s == "rejected" then Some(Rejected)
    else None
  }

  /** Every status but Changed reads back from its column text; "changed" does not. */
  lemma ParseStatusName(status: RenewalStatus)
    ensures ParseStatus(StatusName(status)) == if status == Changed then None else Some(status)
  {
  }
}
