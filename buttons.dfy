/**
 * handlers/buttons.go: what a click on one of the bot's buttons does.
 *
 * Each handler is a method over the store and the session. The clicking
 * member, the button's custom id and the channel and message it sits in come
 * in the Interaction; `now` replaces time.Now(); whether each database and
 * platform call succeeds comes in the Outcomes record.
 */
module Buttons {
  import opened Wrappers
  import opened Text
  import opened Models
  import opened Database
  import opened Platform
  import opened Config
  import opened Scheduler

  /** The fields of discordgo.InteractionCreate the handlers read. */
  datatype Interaction = Interaction(
    isComponent: bool,   // i.Type == InteractionMessageComponent
    customId: string,
    guildId: string,     // i.GuildID
    channelId: string,   // i.ChannelID
    messageId: string,   // i.Message.ID, the message the button sits in
    userId: string,      // i.Member.User.ID
    userName: string)    // i.Member.User.Username

  datatype Route = ToSelection | ToRenewal | ToRemoval | Ignored

  /** InteractionCreate's dispatch on the custom id, tested in this order. */
  function RouteOf(customId: string): (r: Route)
    ensures r == ToSelection <==> HasPrefix(customId, "select_role_")
    ensures r == ToRenewal <==>
      !HasPrefix(customId, "select_role_") && (HasPrefix(customId, "renew_") || customId == "change_role")
    ensures r == ToRemoval ==> customId == "remove_role"
  {
    if HasPrefix(customId, "select_role_") then ToSelection
    else if HasPrefix(customId, "renew_") then ToRenewal
    else if customId == "change_role" then ToRenewal
    else if customId == "remove_role" then ToRemoval
    else Ignored
  }

  datatype RoleChoice = RoleChoice(id: string, name: string)

  /** The two selectable roles, keyed by the buttons of the selection message. */
  function RoleFor(customId: string): (r: Option<RoleChoice>)
    ensures r.Some? <==> customId == "select_role_1" || customId == "select_role_2"
  {
    if customId == "select_role_1" then Some(RoleChoice("1439750973861007442", "Сенди-Шорс"))
    else if customId == "select_role_2" then Some(RoleChoice("1439751278925316116", "ХПалето-Бэй"))
    else None
  }

  datatype ParsedId =
    | BadFormat                            // fewer than three '_'-separated parts
    | BadId                                // the third part does not start with an integer
    | RenewalRequest(action: string, id: int)

  /** handleRenewalResponse's parse: split on '_', the action is part 1, the id leads part 2. */
  function ParseRenewalId(customId: string): (p: ParsedId)
    ensures p.BadFormat? <==> |Split(customId, '_')| < 3
    ensures p.BadId? <==> |Split(customId, '_')| >= 3 && ScanInt(Split(customId, '_')[2]).None?
    ensures p.RenewalRequest? ==> InInt64(p.id) && p.action == Split(customId, '_')[1] && '_' !in p.action
    ensures p.RenewalRequest? ==> ScanInt(Split(customId, '_')[2]) == Some(p.id)
  {
    SplitJoin(customId, '_');
    var parts := Split(customId, '_');
    if |parts| < 3 then BadFormat
    else
      match ScanInt(parts[2])
      case None => BadId
      case Some(n) => RenewalRequest(parts[1], n)
  }

  /** The parser recovers the answer and the row id from both prompt buttons, for every id an int holds. */
  lemma ParseRenewalButtonId(answer: Answer, id: int)
    requires InInt64(id)
    ensures ParseRenewalId(RenewalButtonId(answer, id)) == RenewalRequest(Word(answer), id)
  {
    var digits := FormatInt(id);
    FormatIntHasNoUnderscore(id);
    SplitWithoutSep(digits, '_');
    SplitAfterFirst(Word(answer), digits, '_');
    SplitAfterFirst("renew", Word(answer) + ['_'] + digits, '_');
    assert RenewalButtonId(answer, id) == "renew" + ['_'] + (Word(answer) + ['_'] + digits);
    ScanIntFormatInt(id, "");
    assert digits + "" == digits;
  }

  /** Both prompt buttons reach the renewal handler. */
  lemma RenewalButtonsRouteToRenewal(answer: Answer, id: int)
    ensures RouteOf(RenewalButtonId(answer, id)) == ToRenewal
  {
    var c := RenewalButtonId(answer, id);
    assert c[..|"renew_"|] == "renew_";
    assert !HasPrefix(c, "select_role_") by {
      if |c| >= |"select_role_"| { assert c[0] != "select_role_"[0]; }
    }
  }

  /** The fixed buttons of the selection message route to their handlers. */
  lemma FixedButtonsRoute()
    ensures RouteOf("select_role_1") == ToSelection && RouteOf("select_role_2") == ToSelection
    ensures RouteOf("remove_role") == ToRemoval && RouteOf("change_role") == ToRenewal
  {
    assert "select_role_1"[..12] == "select_role_";
    assert "select_role_2"[..12] == "select_role_";
    assert "remove_role"[0] != "select_role_"[0] && "remove_role"[2] != "renew_"[2];
    assert "change_role"[0] != "select_role_"[0] && "change_role"[0] != "renew_"[0];
  }

  /** change_role, though routed to the renewal handler, always stops at its format check: it has two parts. */
  lemma ChangeRoleIsBadFormat()
    ensures ParseRenewalId("change_role") == BadFormat
  {
    SplitWithoutSep("role", '_');
    SplitAfterFirst("change", "role", '_');
    assert "change_role" == "change" + ['_'] + "role";
  }

  // ---------------------------------------------------------------------------
  // remove_role

  /**
   * What handleRemoveRole leaves behind. `target` is the active row
   * GetActiveRoleByUserID returned. Without one: a reply and nothing else. A
   * failed revoke also stops before the store is touched.
   */
  twostate predicate RemovalDone(s: Session, db: Store, i: Interaction, o: Outcomes, new target: Option<UserRole>)
    reads s, db
  {
    && db.Valid() && db.nextId == old(db.nextId) && SameOwners(old(db.rows), db.rows)
    && (target.None? <==> !o.lookupOk || !HasActiveRowOf(old(db.rows), i.userId))
    && (target.None? ==> unchanged(db) && s.intents == old(s.intents) + [Respond(NoActiveRole)])
    && (target.Some? ==>
          var r := target.value;
          && r.id in old(db.rows) && r == Columns(old(db.rows)[r.id])
          && r.userId == i.userId && r.isActive
          && (!o.revokeOk ==>
                unchanged(db)
                && s.intents == old(s.intents) + [RevokeRole(i.guildId, i.userId, r.roleId), Respond(RemovalFailed)])
          && (o.revokeOk ==>
                && db.rows == (if o.writeOk then Deactivated(old(db.rows), r.id) else old(db.rows))
                && db.notifications == old(db.notifications) + 1
                && s.intents == old(s.intents)
                     + [RevokeRole(i.guildId, i.userId, r.roleId), Respond(if o.writeOk then RoleRemoved(r.roleName) else UpdateFailed)]))
  }

  /** handleRemoveRole */
  method HandleRemoveRole(s: Session, i: Interaction, db: Store, o: Outcomes) returns (ghost target: Option<UserRole>)
    requires db.Valid()
    modifies s, db
    ensures RemovalDone(s, db, i, o, target)
  {
    var current := db.GetActiveRoleByUserID(i.userId, o.lookupOk);
    if current.Failure? || current.value.None? {
      s.Respond(NoActiveRole);
      return None;
    }
    var role := current.value.value;
    target := Some(role);
    var revoked := s.RevokeRole(i.guildId, i.userId, role.roleId, o.revokeOk);
    if !revoked {
      s.Respond(RemovalFailed);
      return;
    }
    var err := db.DeactivateRole(role.id, o.writeOk);
    if err.Some? {
      s.Respond(UpdateFailed);
      return;
    }
    s.Respond(RoleRemoved(role.roleName));
  }

  // ---------------------------------------------------------------------------
  // select_role_*

  /** The selection gets past its checks: the lookup worked, the latest row is not active, the button is known. */
  predicate SelectionProceeds(o: Outcomes, latest: Option<UserRole>, customId: string)
  {
    o.lookupOk && !(latest.Some? && latest.value.isActive) && RoleFor(customId).Some?
  }

  /**
   * What handleRoleSelection leaves behind. `latest` is the row GetUserRole
   * returned. The role is granted on the platform before anything is written;
   * if the grant fails nothing is written, and if the write fails the role is
   * revoked again. The existing row is rewritten when there is one; a row is
   * inserted only when the user has none, so one row per user stays one row
   * per user.
   */
  twostate predicate SelectionDone(s: Session, db: Store, i: Interaction, cfg: Settings, now: int, o: Outcomes,
                                   new latest: Option<UserRole>)
    reads s, db
  {
    && db.Valid()
    && (old(OneRowPerUser(db.rows)) ==> OneRowPerUser(db.rows))
    && (!o.lookupOk ==> latest.None? && unchanged(db) && s.intents == old(s.intents) + [Respond(CheckFailed)])
    && (o.lookupOk ==> (latest.None? <==> !HasRowOf(old(db.rows), i.userId)))
    && (latest.Some? ==>
        IsLatest(old(db.rows), i.userId, latest.value.id) && latest.value == Columns(old(db.rows)[latest.value.id]))
    && (o.lookupOk && latest.Some? && latest.value.isActive ==>
        unchanged(db) && s.intents == old(s.intents) + [Respond(AlreadyActive(latest.value.roleName))])
    && (o.lookupOk && !(latest.Some? && latest.value.isActive) && RoleFor(i.customId).None? ==>
        unchanged(db) && s.intents == old(s.intents) + [Respond(UnknownRole)])
    && (SelectionProceeds(o, latest, i.customId) && !o.grantOk ==>
        var role := RoleFor(i.customId).value;
        unchanged(db) && s.intents == old(s.intents) + [GrantRole(cfg.guildId, i.userId, role.id), Respond(GrantFailed)])
    && (SelectionProceeds(o, latest, i.customId) && o.grantOk && latest.Some? ==>
        var role := RoleFor(i.customId).value;
        && db.nextId == old(db.nextId)
        && db.rows == (if o.writeOk then Reassigned(old(db.rows), i.userId, role.id, role.name, now + cfg.roleDuration, now)
                       else old(db.rows))
        && db.notifications == (if o.writeOk then old(db.notifications) + 1 else old(db.notifications))
        && s.intents == old(s.intents) + [GrantRole(cfg.guildId, i.userId, role.id)]
             + (if o.writeOk then [Respond(Granted(role.name))] else [RevokeRole(i.guildId, i.userId, role.id), Respond(UpdateFailed)]))
    && (SelectionProceeds(o, latest, i.customId) && o.grantOk && latest.None? ==>
        var role := RoleFor(i.customId).value;
        && db.rows == (if o.writeOk
                       then old(db.rows)[old(db.nextId) := NewRow(old(db.nextId), i.userId, i.userName, role.id, role.name,
                                                                  now + cfg.roleDuration, now)]
                       else old(db.rows))
        && db.nextId == (if o.writeOk then old(db.nextId) + 1 else old(db.nextId))
        && db.notifications == (if o.writeOk then old(db.notifications) + 1 else old(db.notifications))
        && s.intents == old(s.intents) + [GrantRole(cfg.guildId, i.userId, role.id)]
             + (if o.writeOk then [Respond(Granted(role.name))] else [RevokeRole(i.guildId, i.userId, role.id), Respond(SaveFailed)]))
  }

  /** handleRoleSelection */
  method HandleRoleSelection(s: Session, i: Interaction, db: Store, cfg: Settings, now: int, o: Outcomes)
    returns (ghost latest: Option<UserRole>)
    requires db.Valid()
    modifies s, db
    ensures SelectionDone(s, db, i, cfg, now, o, latest)
  {
    var existing := db.GetUserRole(i.userId, o.lookupOk);
    if existing.Failure? && existing.error != NotFound {
      s.Respond(CheckFailed);
      return None;
    }
    latest := if existing.Success? then Some(existing.value) else None;
    if existing.Success? && existing.value.isActive {
      s.Respond(AlreadyActive(existing.value.roleName));
      return;
    }
    var choice := RoleFor(i.customId);
    if choice.None? {
      s.Respond(UnknownRole);
      return;
    }
    var role := choice.value;
    var expiresAt := now + cfg.roleDuration;
    var granted := s.GrantRole(cfg.guildId, i.userId, role.id, o.grantOk);
    if !granted {
      s.Respond(GrantFailed);
      return;
    }
    ghost var t0 := db.rows;
    if existing.Success? {
      var err := db.UpdateUserRole(i.userId, role.id, role.name, expiresAt, now, o.writeOk);
      if OneRowPerUser(t0) {
        ReassignedKeepsOneRow(t0, i.userId, role.id, role.name, expiresAt, now);
      }
      if err.Some? {
        var _ := s.RevokeRole(i.guildId, i.userId, role.id, o.revokeOk);
        s.Respond(UpdateFailed);
        return;
      }
    } else {
      var err := db.AddUserRole(i.userId, i.userName, role.id, role.name, expiresAt, now, o.writeOk);
      if OneRowPerUser(t0) && err.None? {
        InsertKeepsOneRow(t0, old(db.nextId),
                          NewRow(old(db.nextId), i.userId, i.userName, role.id, role.name, expiresAt, now));
      }
      if err.Some? {
        var _ := s.RevokeRole(i.guildId, i.userId, role.id, o.revokeOk);
        s.Respond(SaveFailed);
        return;
      }
    }
    s.Respond(Granted(role.name));
  }

  // ---------------------------------------------------------------------------
  // renew_yes_<id> / renew_no_<id>

  /** The click names a row that can be read, and the clicking member owns it. */
  predicate OwnedRequest(t: Table, p: ParsedId, lookupOk: bool, userId: string)
  {
    p.RenewalRequest? && lookupOk && p.id in t && t[p.id].userId == userId
  }

  /**
   * What handleRenewalResponse, with handleRenewalYes and handleRenewalNo,
   * leaves behind. A bad
   * format, a bad id, a missing row, a member other than the row's owner and
   * an unknown action each get a reply and change nothing. "yes" extends the
   * row to now + RoleDuration whatever its status, re-grants the role (a
   * failure is ignored) and cleans up the prompt; if the UPDATE fails it stops
   * before that clean-up. "no" revokes the role and deactivates the row even
   * if the revoke failed.
   */
  twostate predicate RenewalDone(s: Session, db: Store, i: Interaction, cfg: Settings, now: int, o: Outcomes)
    reads s, db
  {
    && db.Valid() && db.nextId == old(db.nextId) && SameOwners(old(db.rows), db.rows)
    && (ParseRenewalId(i.customId).BadFormat? ==>
        unchanged(db) && s.intents == old(s.intents) + [Respond(InvalidFormat)])
    && (ParseRenewalId(i.customId).BadId? ==>
        unchanged(db) && s.intents == old(s.intents) + [Respond(InvalidRoleId)])
    && (ParseRenewalId(i.customId).RenewalRequest? && !(o.lookupOk && ParseRenewalId(i.customId).id in old(db.rows)) ==>
        unchanged(db) && s.intents == old(s.intents) + [Respond(RecordNotFound)])
    && (
        var p := ParseRenewalId(i.customId);
        p.RenewalRequest? && o.lookupOk && p.id in old(db.rows) && old(db.rows)[p.id].userId != i.userId ==>
          unchanged(db) && s.intents == old(s.intents) + [Respond(NotOwner)])
    && (
        var p := ParseRenewalId(i.customId);
        OwnedRequest(old(db.rows), p, o.lookupOk, i.userId) && p.action != "yes" && p.action != "no" ==>
          unchanged(db) && s.intents == old(s.intents) + [Respond(UnknownAction)])
    && (
        var p := ParseRenewalId(i.customId);
        OwnedRequest(old(db.rows), p, o.lookupOk, i.userId) && p.action == "yes" ==>
          var role := old(db.rows)[p.id];
          var until := now + cfg.roleDuration;
          && db.notifications == old(db.notifications) + 1
          && db.rows == (if o.writeOk then Extended(old(db.rows), p.id, until) else old(db.rows))
          && s.intents == old(s.intents) +
               if !o.writeOk then [Respond(ExtendFailed)]
               else [GrantRole(cfg.guildId, role.userId, role.roleId), Respond(RoleExtended(role.roleName, until)),
                     ClearButtons(i.channelId, i.messageId)]
                    + PromptDeletion(old(db.rows), p.id, o.promptLookupOk, cfg.notificationChannelId)
                    + [Respond(RoleExtended(role.roleName, until))])
    && (
        var p := ParseRenewalId(i.customId);
        OwnedRequest(old(db.rows), p, o.lookupOk, i.userId) && p.action == "no" ==>
          var role := old(db.rows)[p.id];
          && db.notifications == old(db.notifications) + 1
          && db.rows == (if o.writeOk then Deactivated(old(db.rows), p.id) else old(db.rows))
          && s.intents == old(s.intents) + [RevokeRole(cfg.guildId, role.userId, role.roleId)] +
               if !o.writeOk then [Respond(RemovalFailed)]
               else [Respond(Declined(role.roleName)), ClearButtons(i.channelId, i.messageId)]
                    + PromptDeletion(old(db.rows), p.id, o.promptLookupOk, cfg.notificationChannelId)
                    + [Respond(Declined(role.roleName))])
  }

  /** handleRenewalResponse */
  method HandleRenewalResponse(s: Session, i: Interaction, db: Store, cfg: Settings, now: int, o: Outcomes)
    requires db.Valid()
    modifies s, db
    ensures RenewalDone(s, db, i, cfg, now, o)
  {
    var parsed := ParseRenewalId(i.customId);
    if parsed.BadFormat? {
      s.Respond(InvalidFormat);
      return;
    }
    if parsed.BadId? {
      s.Respond(InvalidRoleId);
      return;
    }
    var found := db.GetRoleByID(parsed.id, o.lookupOk);
    if found.Failure? {
      s.Respond(RecordNotFound);
      return;
    }
    var role := found.value;
    if i.userId != role.userId {
      s.Respond(NotOwner);
      return;
    }
    if parsed.action == "yes" {
      HandleRenewalYes(s, i, db, cfg, role, now, o);
    } else if parsed.action == "no" {
      HandleRenewalNo(s, i, db, cfg, role, o);
    } else {
      s.Respond(UnknownAction);
    }
  }

  /** handleRenewalYes for the row `role` as GetRoleByID read it. */
  method HandleRenewalYes(s: Session, i: Interaction, db: Store, cfg: Settings, role: UserRole, now: int, o: Outcomes)
    requires db.Valid()
    modifies s, db
    ensures db.Valid() && db.nextId == old(db.nextId) && SameOwners(old(db.rows), db.rows)
    ensures db.notifications == old(db.notifications) + 1
    ensures db.rows == (if o.writeOk then Extended(old(db.rows), role.id, now + cfg.roleDuration) else old(db.rows))
    ensures s.intents == old(s.intents) +
      if !o.writeOk then [Respond(ExtendFailed)]
      else [GrantRole(cfg.guildId, role.userId, role.roleId), Respond(RoleExtended(role.roleName, now + cfg.roleDuration)),
            ClearButtons(i.channelId, i.messageId)]
           + PromptDeletion(old(db.rows), role.id, o.promptLookupOk, cfg.notificationChannelId)
           + [Respond(RoleExtended(role.roleName, now + cfg.roleDuration))]
  {
    var until := now + cfg.roleDuration;
    var err := db.ExtendRole(role.id, until, o.writeOk);
    if err.Some? {
      s.Respond(ExtendFailed);
      return;
    }
    var _ := s.GrantRole(cfg.guildId, role.userId, role.roleId, o.grantOk);
    s.Respond(RoleExtended(role.roleName, until));
    s.ClearButtons(i.channelId, i.messageId);
    DeleteRenewalMessage(s, cfg, role.id, db, o.promptLookupOk);
    s.Respond(RoleExtended(role.roleName, until));
  }

  /** handleRenewalNo for the row `role` as GetRoleByID read it. */
  method HandleRenewalNo(s: Session, i: Interaction, db: Store, cfg: Settings, role: UserRole, o: Outcomes)
    requires db.Valid()
    modifies s, db
    ensures db.Valid() && db.nextId == old(db.nextId) && SameOwners(old(db.rows), db.rows)
    ensures db.notifications == old(db.notifications) + 1
    ensures db.rows == (if o.writeOk then Deactivated(old(db.rows), role.id) else old(db.rows))
    ensures s.intents == old(s.intents) + [RevokeRole(cfg.guildId, role.userId, role.roleId)] +
      if !o.writeOk then [Respond(RemovalFailed)]
      else [Respond(Declined(role.roleName)), ClearButtons(i.channelId, i.messageId)]
           + PromptDeletion(old(db.rows), role.id, o.promptLookupOk, cfg.notificationChannelId)
           + [Respond(Declined(role.roleName))]
  {
    var _ := s.RevokeRole(cfg.guildId, role.userId, role.roleId, o.revokeOk);
    var err := db.DeactivateRole(role.id, o.writeOk);
    if err.Some? {
      s.Respond(RemovalFailed);
      return;
    }
    s.Respond(Declined(role.roleName));
    s.ClearButtons(i.channelId, i.messageId);
    DeleteRenewalMessage(s, cfg, role.id, db, o.promptLookupOk);
    s.Respond(Declined(role.roleName));
  }

  // ---------------------------------------------------------------------------
  // Dispatch

  /**
   * InteractionCreate: only button clicks are handled, and only those whose
   * id routes somewhere; each route ends as its handler does, and every
   * handler keeps one row per user. `picked` is the row the selection or
   * removal handler looked up.
   */
  method InteractionCreate(s: Session, i: Interaction, db: Store, cfg: Settings, now: int, o: Outcomes)
    returns (ghost picked: Option<UserRole>)
    requires db.Valid()
    modifies s, db
    ensures db.Valid()
    ensures old(OneRowPerUser(db.rows)) ==> OneRowPerUser(db.rows)
    ensures !i.isComponent || RouteOf(i.customId) == Ignored ==> unchanged(db) && unchanged(s)
    ensures i.isComponent && RouteOf(i.customId) == ToSelection ==> SelectionDone(s, db, i, cfg, now, o, picked)
    ensures i.isComponent && RouteOf(i.customId) == ToRenewal ==> RenewalDone(s, db, i, cfg, now, o)
    ensures i.isComponent && RouteOf(i.customId) == ToRemoval ==> RemovalDone(s, db, i, o, picked)
    ensures i.isComponent && i.customId == "change_role" ==>
      unchanged(db) && s.intents == old(s.intents) + [Respond(InvalidFormat)]
  {
    if !i.isComponent {
      return None;
    }
    ghost var t0 := db.rows;
    match RouteOf(i.customId)
    case ToSelection =>
      picked := HandleRoleSelection(s, i, db, cfg, now, o);
    case ToRenewal =>
      picked := None;
      HandleRenewalResponse(s, i, db, cfg, now, o);
      if OneRowPerUser(t0) { SameOwnersKeepOneRow(t0, db.rows); }
      if i.customId == "change_role" { ChangeRoleIsBadFormat(); }
    case ToRemoval =>
      picked := HandleRemoveRole(s, i, db, o);
      if OneRowPerUser(t0) { SameOwnersKeepOneRow(t0, db.rows); }
    case Ignored =>
      picked := None;
  }
}
