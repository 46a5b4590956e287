/**
 * database/db.go: the user_roles table and the statements the bot runs on it.
 *
 * The table is a map from the serial id to the row. Each statement is a
 * method of Store; whether the database accepts the statement is a parameter
 * (`execOk`, `queryOk`), since the server is not part of the model. The pure
 * functions below give the table each UPDATE leaves behind.
 */
module Database {
  import opened Wrappers
  import opened Models

  type Table = map<int, UserRole>

  datatype DbError =
    | NotFound              // sql.ErrNoRows, reported as "... not found"
    | DbFailure             // any other error the database reports
    | InvalidStatus(status: string)

  /** The column list of the SELECTs: everything but message_id, which is left "". */
  function Columns(r: UserRole): UserRole
  {
    r.(messageId := "")
  }

  /** GetExpiredRoles' filter: expired strictly before now, active, and still pending. */
  predicate IsExpired(r: UserRole, now: int)
  {
    r.expiresAt < now && r.isActive && r.renewalStatus == Pending
  }

  predicate HasRowOf(t: Table, userId: string)
  {
    exists k | k in t :: t[k].userId == userId
  }

  predicate HasActiveRowOf(t: Table, userId: string)
  {
    exists k | k in t :: t[k].userId == userId && t[k].isActive
  }

  /** Row id is one of the user's rows with the greatest created_at. */
  predicate IsLatest(t: Table, userId: string, id: int)
  {
    && id in t && t[id].userId == userId
    && forall k | k in t && t[k].userId == userId :: t[k].createdAt <= t[id].createdAt
  }

  /** The invariant the role-selection handler keeps: one row per user. */
  predicate OneRowPerUser(t: Table)
  {
    forall a, b | a in t && b in t && t[a].userId == t[b].userId :: a == b
  }

  predicate OneActivePerUser(t: Table)
  {
    forall a, b | a in t && b in t && t[a].isActive && t[b].isActive && t[a].userId == t[b].userId :: a == b
  }

  /** t' has the rows of t, each still owned by the same user. */
  ghost predicate SameOwners(t: Table, t': Table)
  {
    t'.Keys == t.Keys && forall k | k in t :: t'[k].userId == t[k].userId
  }

  lemma SameOwnersTransitive(t: Table, t': Table, t'': Table)
    requires SameOwners(t, t') && SameOwners(t', t'')
    ensures SameOwners(t, t'')
  {
  }

  lemma SameOwnersKeepOneRow(t: Table, t': Table)
    requires SameOwners(t, t') && OneRowPerUser(t)
    ensures OneRowPerUser(t')
  {
    forall a, b | a in t' && b in t' && t'[a].userId == t'[b].userId ensures a == b {
      assert t[a].userId == t[b].userId;
    }
  }

  /** A row for a user who has none keeps the one-row-per-user invariant. */
  lemma InsertKeepsOneRow(t: Table, id: int, row: UserRole)
    requires OneRowPerUser(t) && id !in t && !HasRowOf(t, row.userId)
    ensures OneRowPerUser(t[id := row])
  {
  }

  lemma OneRowGivesOneActive(t: Table)
    requires OneRowPerUser(t)
    ensures OneActivePerUser(t)
  {
  }

  /**
   * roles lists exactly the expiring rows (without message_id), each once, in
   * some order: all that the SELECT promises, as it has no ORDER BY.
   */
  ghost predicate ExpiredSet(t: Table, now: int, roles: seq<UserRole>)
  {
    && (forall k | 0 <= k < |roles| :: roles[k].id in t && IsExpired(t[roles[k].id], now) && roles[k] == Columns(t[roles[k].id]))
    && (forall i, j | 0 <= i < j < |roles| :: roles[i].id != roles[j].id)
    && (forall id | id in t && IsExpired(t[id], now) :: Columns(t[id]) in roles)
  }

  /** What GetExpiredRoles returns in this model: that listing, in ascending id order, the order of its scan. */
  ghost predicate ExpiredListing(t: Table, now: int, roles: seq<UserRole>)
  {
    ExpiredSet(t, now, roles) && (forall i, j | 0 <= i < j < |roles| :: roles[i].id < roles[j].id)
  }

  // ---------------------------------------------------------------------------
  // The tables the statements leave behind

  /** AddUserRole's INSERT. is_active, renewal_status and created_at come from the schema's defaults. */
  function NewRow(id: int, userId: string, userName: string, roleId: string, roleName: string,
                  expiresAt: int, now: int): (r: UserRole)
    ensures r.id == id && r.userId == userId && r.userName == userName
    ensures r.roleId == roleId && r.roleName == roleName
    ensures r.isActive && r.renewalStatus == Pending && r.messageId == ""
    ensures r.createdAt == now && r.expiresAt == expiresAt
  {
    UserRole(id, userId, userName, roleId, roleName, now, expiresAt, true, Pending, "")
  }

  /** UPDATE user_roles SET renewal_status = status WHERE id = id */
  function WithStatus(t: Table, id: int, status: RenewalStatus): (t': Table)
    ensures t'.Keys == t.Keys
    ensures forall k | k in t && k != id :: t'[k] == t[k]
    ensures id in t ==> t'[id] == t[id].(renewalStatus := status)
  {
    if id in t then t[id := t[id].(renewalStatus := status)] else t
  }

  /** UPDATE user_roles SET message_id = messageId WHERE id = id */
  function WithMessageId(t: Table, id: int, messageId: string): (t': Table)
    ensures t'.Keys == t.Keys
    ensures forall k | k in t && k != id :: t'[k] == t[k]
    ensures id in t ==> t'[id] == t[id].(messageId := messageId)
  {
    if id in t then t[id := t[id].(messageId := messageId)] else t
  }

  /** ExtendRole's UPDATE: new expiry, active again, pending again; message_id is kept. */
  function Extended(t: Table, id: int, expiresAt: int): (t': Table)
    ensures t'.Keys == t.Keys
    ensures forall k | k in t && k != id :: t'[k] == t[k]
    ensures id in t ==> t'[id] == t[id].(expiresAt := expiresAt, isActive := true, renewalStatus := Pending)
  {
    if id in t then t[id := t[id].(expiresAt := expiresAt, isActive := true, renewalStatus := Pending)] else t
  }

  /** DeactivateRole's UPDATE. */
  function Deactivated(t: Table, id: int): (t': Table)
    ensures t'.Keys == t.Keys
    ensures forall k | k in t && k != id :: t'[k] == t[k]
    ensures id in t ==> t'[id] == t[id].(isActive := false, renewalStatus := Rejected)
  {
    if id in t then t[id := t[id].(isActive := false, renewalStatus := Rejected)] else t
  }

  /** The UPDATE of UpdateUserRole: every row of the user gets the new role and starts afresh. */
  function Reassigned(t: Table, userId: string, roleId: string, roleName: string, expiresAt: int, now: int): (t': Table)
    ensures t'.Keys == t.Keys
    ensures forall k | k in t && t[k].userId != userId :: t'[k] == t[k]
    ensures forall k | k in t && t[k].userId == userId ::
      t'[k] == t[k].(roleId := roleId, roleName := roleName, expiresAt := expiresAt, isActive := true,
                     renewalStatus := Pending, createdAt := now, messageId := "")
  {
    map k | k in t ::
      if t[k].userId == userId then
        t[k].(roleId := roleId, roleName := roleName, expiresAt := expiresAt, isActive := true,
              renewalStatus := Pending, createdAt := now, messageId := "")
      else t[k]
  }

  /** RemoveUserRole's UPDATE: every row of the user inactive and "changed". */
  function Removed(t: Table, userId: string): (t': Table)
    ensures t'.Keys == t.Keys
    ensures forall k | k in t && t[k].userId != userId :: t'[k] == t[k]
    ensures forall k | k in t && t[k].userId == userId :: t'[k] == t[k].(isActive := false, renewalStatus := Changed)
  {
    map k | k in t :: if t[k].userId == userId then t[k].(isActive := false, renewalStatus := Changed) else t[k]
  }

  /** Deactivating a row twice leaves the same table as deactivating it once. */
  lemma DeactivateIdempotent(t: Table, id: int)
    ensures Deactivated(Deactivated(t, id), id) == Deactivated(t, id)
  {
  }

  /** A deactivated row is never selected by the expiry scan, whatever the time. */
  lemma DeactivatedNotExpired(t: Table, id: int, now: int)
    requires id in t
    ensures !IsExpired(Deactivated(t, id)[id], now)
  {
  }

  /** An extended row is selected again exactly once its new expiry has passed. */
  lemma ExtendedExpiresAgain(t: Table, id: int, expiresAt: int, now: int)
    requires id in t
    ensures IsExpired(Extended(t, id, expiresAt)[id], now) <==> expiresAt < now
  {
  }

  /** UpdateUserRole keeps the one-row-per-user invariant and touches no other user's rows. */
  lemma ReassignedKeepsOneRow(t: Table, userId: string, roleId: string, roleName: string, expiresAt: int, now: int)
    requires OneRowPerUser(t)
    ensures OneRowPerUser(Reassigned(t, userId, roleId, roleName, expiresAt, now))
  {
    var t' := Reassigned(t, userId, roleId, roleName, expiresAt, now);
    forall a, b | a in t' && b in t' && t'[a].userId == t'[b].userId ensures a == b {
      assert t'[a].userId == t[a].userId && t'[b].userId == t[b].userId;
    }
  }

  // ---------------------------------------------------------------------------
  // The store

  class Store {
    var rows: Table
    /** The next value of the id sequence. */
    var nextId: int
    /** How many times `go db.statsUpdater()` has been started. */
    ghost var notifications: nat

    ghost predicate Valid()
      reads this
    {
      1 <= nextId && forall id | id in rows :: 1 <= id < nextId && rows[id].id == id
    }

    constructor ()
      ensures Valid() && rows == map[] && nextId == 1 && notifications == 0
    {
      rows := map[];
      nextId := 1;
      notifications := 0;
    }

    /** AddUserRole: inserts a fresh row with an empty message_id; the notifier fires only on success. */
    method AddUserRole(userId: string, userName: string, roleId: string, roleName: string,
                       expiresAt: int, now: int, execOk: bool) returns (err: Option<DbError>)
      requires Valid()
      modifies this
      ensures Valid()
      ensures err == if execOk then None else Some(DbFailure)
      ensures execOk ==>
        && rows == old(rows)[old(nextId) := NewRow(old(nextId), userId, userName, roleId, roleName, expiresAt, now)]
        && nextId == old(nextId) + 1
        && notifications == old(notifications) + 1
      ensures !execOk ==> rows == old(rows) && nextId == old(nextId) && notifications == old(notifications)
    {
      if !execOk {
        return Some(DbFailure);
      }
      rows := rows[nextId := NewRow(nextId, userId, userName, roleId, roleName, expiresAt, now)];
      nextId := nextId + 1;
      notifications := notifications + 1;
      err := None;
    }

    /** GetExpiredRoles: the rows expired before now that are active and pending; reads only. */
    method GetExpiredRoles(now: int, queryOk: bool) returns (res: Result<seq<UserRole>, DbError>)
      requires Valid()
      ensures !queryOk ==> res == Failure(DbFailure)
      ensures queryOk ==> res.Success? && ExpiredListing(rows, now, res.value)
    {
      if !queryOk {
        return Failure(DbFailure);
      }
      var roles: seq<UserRole> := [];
      var id := 1;
      while id < nextId
        invariant 1 <= id <= nextId
        invariant forall k | 0 <= k < |roles| :: roles[k].id in rows && roles[k].id < id
        invariant forall k | 0 <= k < |roles| :: IsExpired(rows[roles[k].id], now) && roles[k] == Columns(rows[roles[k].id])
        invariant forall i, j | 0 <= i < j < |roles| :: roles[i].id < roles[j].id
        invariant forall k | k in rows && k < id && IsExpired(rows[k], now) :: Columns(rows[k]) in roles
      {
        if id in rows && IsExpired(rows[id], now) {
          roles := roles + [Columns(rows[id])];
        }
        id := id + 1;
      }
      res := Success(roles);
    }

    /** GetRoleByID: the row without message_id, or "not found". */
    method GetRoleByID(id: int, queryOk: bool) returns (res: Result<UserRole, DbError>)
      ensures !queryOk ==> res == Failure(DbFailure)
      ensures queryOk && id !in rows ==> res == Failure(NotFound)
      ensures queryOk && id in rows ==> res == Success(Columns(rows[id]))
    {
      if !queryOk {
        return Failure(DbFailure);
      }
      if id !in rows {
        return Failure(NotFound);
      }
      res := Success(Columns(rows[id]));
    }

    /**
     * UpdateRenewalStatus: a status outside pending, waiting_response,
     * confirmed and rejected is refused before anything is sent; a valid one
     * changes only that row's renewal_status. The notifier does not fire.
     */
    method UpdateRenewalStatus(id: int, status: string, execOk: bool) returns (err: Option<DbError>)
      requires Valid()
      modifies this
      ensures Valid() && nextId == old(nextId) && notifications == old(notifications)
      ensures ParseStatus(status).None? ==> err == Some(InvalidStatus(status)) && rows == old(rows)
      ensures ParseStatus(status).Some? && !execOk ==> err == Some(DbFailure) && rows == old(rows)
      ensures ParseStatus(status).Some? && execOk ==>
        err == None && rows == WithStatus(old(rows), id, ParseStatus(status).value)
    {
      var parsed := ParseStatus(status);
      if parsed.None? {
        return Some(InvalidStatus(status));
      }
      if !execOk {
        return Some(DbFailure);
      }
      rows := WithStatus(rows, id, parsed.value);
      err := None;
    }

    /** ExtendRole: the notifier fires whether or not the UPDATE succeeded. */
    method ExtendRole(id: int, newExpiresAt: int, execOk: bool) returns (err: Option<DbError>)
      requires Valid()
      modifies this
      ensures Valid() && nextId == old(nextId) && notifications == old(notifications) + 1
      ensures err == if execOk then None else Some(DbFailure)
      ensures rows == if execOk then Extended(old(rows), id, newExpiresAt) else old(rows)
    {
      if execOk {
        rows := Extended(rows, id, newExpiresAt);
        err := None;
      } else {
        err := Some(DbFailure);
      }
      notifications := notifications + 1;
    }

    /** DeactivateRole: the notifier fires whether or not the UPDATE succeeded. */
    method DeactivateRole(id: int, execOk: bool) returns (err: Option<DbError>)
      requires Valid()
      modifies this
      ensures Valid() && nextId == old(nextId) && notifications == old(notifications) + 1
      ensures err == if execOk then None else Some(DbFailure)
      ensures rows == if execOk then Deactivated(old(rows), id) else old(rows)
    {
      if execOk {
        rows := Deactivated(rows, id);
        err := None;
      } else {
        err := Some(DbFailure);
      }
      notifications := notifications + 1;
    }

    /**
     * GetActiveRoleByUserID: one of the user's active rows (the database may
     * return any of them), or no row and no error when there is none.
     */
    method GetActiveRoleByUserID(userId: string, queryOk: bool) returns (res: Result<Option<UserRole>, DbError>)
      requires Valid()
      ensures !queryOk ==> res == Failure(DbFailure)
      ensures queryOk && !HasActiveRowOf(rows, userId) ==> res == Success(None)
      ensures queryOk && HasActiveRowOf(rows, userId) ==>
        && res.Success? && res.value.Some?
        && var r := res.value.value;
           r.id in rows && rows[r.id].userId == userId && rows[r.id].isActive && r == Columns(rows[r.id])
    {
      if !queryOk {
        return Failure(DbFailure);
      }
      var id := 1;
      while id < nextId
        invariant 1 <= id <= nextId
        invariant forall k | k in rows && k < id :: !(rows[k].userId == userId && rows[k].isActive)
      {
        if id in rows && rows[id].userId == userId && rows[id].isActive {
          return Success(Some(Columns(rows[id])));
        }
        id := id + 1;
      }
      res := Success(None);
    }

    /** RemoveUserRole: every row of the user becomes inactive with status "changed"; no notification. */
    method RemoveUserRole(userId: string, execOk: bool) returns (err: Option<DbError>)
      requires Valid()
      modifies this
      ensures Valid() && nextId == old(nextId) && notifications == old(notifications)
      ensures err == if execOk then None else Some(DbFailure)
      ensures rows == if execOk then Removed(old(rows), userId) else old(rows)
    {
      if !execOk {
        return Some(DbFailure);
      }
      rows := Removed(rows, userId);
      err := None;
    }

    /**
     * GetUserRole: the user's row with the greatest created_at, active or
     * not (which of several equally recent rows is unspecified), or "not found".
     */
    method GetUserRole(userId: string, queryOk: bool) returns (res: Result<UserRole, DbError>)
      requires Valid()
      ensures !queryOk ==> res == Failure(DbFailure)
      ensures queryOk && !HasRowOf(rows, userId) ==> res == Failure(NotFound)
      ensures queryOk && HasRowOf(rows, userId) ==>
        res.Success? && IsLatest(rows, userId, res.value.id) && res.value == Columns(rows[res.value.id])
    {
      if !queryOk {
        return Failure(DbFailure);
      }
      var best: Option<int> := None;
      var id := 1;
      while id < nextId
        invariant 1 <= id <= nextId
        invariant best.None? ==> forall k | k in rows && k < id :: rows[k].userId != userId
        invariant best.Some? ==> best.value in rows && rows[best.value].userId == userId
        invariant best.Some? ==>
          forall k | k in rows && k < id && rows[k].userId == userId :: rows[k].createdAt <= rows[best.value].createdAt
      {
        if id in rows && rows[id].userId == userId && (best.None? || rows[id].createdAt > rows[best.value].createdAt) {
          best := Some(id);
        }
        id := id + 1;
      }
      if best.None? {
        return Failure(NotFound);
      }
      res := Success(Columns(rows[best.value]));
    }

    /** UpdateUserRole: rewrites every row of the user; the notifier fires only on success. */
    method UpdateUserRole(userId: string, roleId: string, roleName: string, expiresAt: int, now: int,
                          execOk: bool) returns (err: Option<DbError>)
      requires Valid()
      modifies this
      ensures Valid() && nextId == old(nextId)
      ensures err == if execOk then None else Some(DbFailure)
      ensures rows == if execOk then Reassigned(old(rows), userId, roleId, roleName, expiresAt, now) else old(rows)
      ensures notifications == if execOk then old(notifications) + 1 else old(notifications)
    {
      if !execOk {
        return Some(DbFailure);
      }
      rows := Reassigned(rows, userId, roleId, roleName, expiresAt, now);
      notifications := notifications + 1;
      err := None;
    }

    /** SetRenewalMessageID: changes only that row's message_id; no notification. */
    method SetRenewalMessageID(id: int, messageId: string, execOk: bool) returns (err: Option<DbError>)
      requires Valid()
      modifies this
      ensures Valid() && nextId == old(nextId) && notifications == old(notifications)
      ensures err == if execOk then None else Some(DbFailure)
      ensures rows == if execOk then WithMessageId(old(rows), id, messageId) else old(rows)
    {
      if !execOk {
        return Some(DbFailure);
      }
      rows := WithMessageId(rows, id, messageId);
      err := None;
    }

    /** GetRenewalMessageID: the stored message_id, or an error when the row is missing. */
    method GetRenewalMessageID(id: int, queryOk: bool) returns (res: Result<string, DbError>)
      ensures !queryOk ==> res == Failure(DbFailure)
      ensures queryOk && id !in rows ==> res == Failure(NotFound)
      ensures queryOk && id in rows ==> res == Success(rows[id].messageId)
    {
      if !queryOk {
        return Failure(DbFailure);
      }
      if id !in rows {
        return Failure(NotFound);
      }
      res := Success(rows[id].messageId);
    }
  }

  /** SetRenewalMessageID(id, m) followed by GetRenewalMessageID(id) gives m back. */
  method MessageIdRoundTrip(db: Store, id: int, m: string) returns (got: Result<string, DbError>)
    requires db.Valid() && id in db.rows
    modifies db
    ensures got == Success(m)
  {
    var _ := db.SetRenewalMessageID(id, m, true);
    got := db.GetRenewalMessageID(id, true);
  }
}
