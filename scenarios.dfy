/**
 * The race between a member's click on a renewal prompt and the prompt's
 * timer, and a repeated role selection, as sequences of the handlers called
 * one after the other in each order in which the bot can run them.
 */
module Scenarios {
  import opened Wrappers
  import opened Text
  import opened Models
  import opened Database
  import opened Platform
  import opened Config
  import opened Scheduler
  import opened Buttons

  /** The owner of row `id` clicks one of its prompt's buttons. */
  predicate ClickOn(i: Interaction, answer: Answer, t: Table, id: int)
  {
    id in t && InInt64(id) && i.customId == RenewalButtonId(answer, id) && i.userId == t[id].userId
  }

  /** A row the scan has prompted, with the role its timer captured. */
  predicate Prompted(t: Table, role: UserRole)
  {
    role.id in t && t[role.id].renewalStatus == WaitingResponse && role == Columns(t[role.id])
  }

  /** Every call in that stretch of the log took a role away, or none did. */
  predicate NoRevokeFrom(log: seq<Intent>, from: int)
  {
    forall k :: 0 <= from <= k < |log| ==> !log[k].RevokeRole?
  }

  /**
   * "yes" before the timer fires: the row is pending again, so the timer
   * does nothing; the role is kept until now + RoleDuration and never revoked.
   */
  method YesThenTimeout(s: Session, db: Store, cfg: Settings, i: Interaction, role: UserRole, now: int, o: Outcomes)
    requires db.Valid() && Prompted(db.rows, role) && ClickOn(i, Yes, db.rows, role.id)
    requires o.lookupOk && o.writeOk
    modifies s, db
    ensures role.id in db.rows
    ensures db.rows[role.id] == old(db.rows[role.id]).(expiresAt := now + cfg.roleDuration, isActive := true, renewalStatus := Pending)
    ensures forall k | k in old(db.rows) && k != role.id :: k in db.rows && db.rows[k] == old(db.rows[k])
    ensures NoRevokeFrom(s.intents, |old(s.intents)|)
  {
    ParseRenewalButtonId(Yes, role.id);
    HandleRenewalResponse(s, i, db, cfg, now, o);
    ghost var log := s.intents;
    RenewalTimeout(s, db, cfg, role, o);
    assert s.intents == log;
  }

  /**
   * The timer before "yes": the timer revokes and deactivates, and the late
   * click then brings the row back, since the handler checks neither its
   * status nor whether the prompt is still wanted. The member loses the role
   * and gets it back, and the prompt's deletion is requested twice, because
   * the stored message id is never cleared.
   */
  method TimeoutThenYes(s: Session, db: Store, cfg: Settings, i: Interaction, role: UserRole, now: int, o: Outcomes)
    requires db.Valid() && Prompted(db.rows, role) && ClickOn(i, Yes, db.rows, role.id)
    requires o.lookupOk && o.writeOk
    modifies s, db
    ensures role.id in db.rows
    ensures db.rows[role.id] == old(db.rows[role.id]).(expiresAt := now + cfg.roleDuration, isActive := true, renewalStatus := Pending)
    ensures
      var prompt := PromptDeletion(old(db.rows), role.id, o.promptLookupOk, cfg.notificationChannelId);
      var until := now + cfg.roleDuration;
      s.intents == old(s.intents) + prompt + [RevokeRole(cfg.guildId, role.userId, role.roleId)]
        + [GrantRole(cfg.guildId, role.userId, role.roleId), Respond(RoleExtended(role.roleName, until)),
           ClearButtons(i.channelId, i.messageId)]
        + prompt + [Respond(RoleExtended(role.roleName, until))]
  {
    ghost var t0 := db.rows;
    RenewalTimeout(s, db, cfg, role, o);
    assert db.rows == Deactivated(t0, role.id);
    ParseRenewalButtonId(Yes, role.id);
    HandleRenewalResponse(s, i, db, cfg, now, o);
  }

  /**
   * "no" before the timer fires: the row is rejected, so the timer does
   * nothing and the role is revoked exactly once.
   */
  method NoThenTimeout(s: Session, db: Store, cfg: Settings, i: Interaction, role: UserRole, o: Outcomes, now: int)
    requires db.Valid() && Prompted(db.rows, role) && ClickOn(i, No, db.rows, role.id)
    requires o.lookupOk && o.writeOk
    modifies s, db
    ensures db.rows == Deactivated(old(db.rows), role.id)
    ensures
      var prompt := PromptDeletion(old(db.rows), role.id, o.promptLookupOk, cfg.notificationChannelId);
      s.intents == old(s.intents) + [RevokeRole(cfg.guildId, role.userId, role.roleId)]
        + [Respond(Declined(role.roleName)), ClearButtons(i.channelId, i.messageId)]
        + prompt + [Respond(Declined(role.roleName))]
  {
    ParseRenewalButtonId(No, role.id);
    HandleRenewalResponse(s, i, db, cfg, now, o);
    RenewalTimeout(s, db, cfg, role, o);
  }

  /**
   * A member without a row picks a role and then clicks a selection button
   * again: the first click inserts their one row, the second finds it active
   * and changes nothing.
   */
  method SelectTwice(s: Session, db: Store, cfg: Settings, i: Interaction, again: Interaction, now: int, later: int, o: Outcomes)
    requires db.Valid() && OneRowPerUser(db.rows) && !HasRowOf(db.rows, i.userId)
    requires RoleFor(i.customId).Some? && again.userId == i.userId
    requires o.lookupOk && o.grantOk && o.writeOk
    modifies s, db
    ensures OneRowPerUser(db.rows)
    ensures
      var role := RoleFor(i.customId).value;
      db.rows == old(db.rows)[old(db.nextId) := NewRow(old(db.nextId), i.userId, i.userName, role.id, role.name,
                                                      now + cfg.roleDuration, now)]
    ensures
      var role := RoleFor(i.customId).value;
      s.intents == old(s.intents)
        + [GrantRole(cfg.guildId, i.userId, role.id), Respond(Granted(role.name)), Respond(AlreadyActive(role.name))]
  {
    var first := HandleRoleSelection(s, i, db, cfg, now, o);
    ghost var t1 := db.rows;
    ghost var id := old(db.nextId);
    assert t1[id].userId == i.userId;
    var second := HandleRoleSelection(s, again, db, cfg, later, o);
    assert second.Some? && second.value.id == id;
  }
}
