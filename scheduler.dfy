/**
 * scheduler/scheduler.go: the periodic expiry scan, the renewal prompt it
 * posts, and what the renewal timer does once its sleep is over.
 *
 * The ticker and the goroutines are not modelled: a tick is one call of
 * CheckExpiredRoles, and each timer it arms is a later call of
 * RenewalTimeout with the row the goroutine captured.
 */
module Scheduler {
  import opened Wrappers
  import opened Text
  import opened Models
  import opened Database
  import opened Platform
  import opened Config

  datatype Answer = Yes | No

  function Word(answer: Answer): string
  {
    match answer
    case Yes => "yes"
    case No => "no"
  }

  /** fmt.Sprintf("renew_yes_%d", id) and fmt.Sprintf("renew_no_%d", id). */
  function RenewalButtonId(answer: Answer, id: int): (c: string)
    ensures HasPrefix(c, "renew_")
  {
    "renew_" + Word(answer) + "_" + FormatInt(id)
  }

  /** The prompt posted for one expired row, with its two buttons. */
  function PromptFor(channelId: string, role: UserRole): Intent
  {
    PostPrompt(channelId, role.userId, role.roleName, RenewalButtonId(Yes, role.id), RenewalButtonId(No, role.id))
  }

  /** A prompt goes to the channel, mentions the member and the role, and its two buttons never share an id. */
  lemma PromptButtonsDiffer(channelId: string, role: UserRole)
    ensures var p := PromptFor(channelId, role);
      p.PostPrompt? && p.channelId == channelId && p.userId == role.userId && p.roleName == role.roleName
    ensures PromptFor(channelId, role).yesId != PromptFor(channelId, role).noId
  {
    assert RenewalButtonId(Yes, role.id)[6] != RenewalButtonId(No, role.id)[6];
  }

  /** The prompts of one tick, one per listed row, in order. */
  function PromptsFor(channelId: string, roles: seq<UserRole>): (r: seq<Intent>)
    ensures |r| == |roles|
    ensures forall k | 0 <= k < |roles| :: r[k] == PromptFor(channelId, roles[k])
  {
    if roles == [] then []
    else PromptsFor(channelId, roles[..|roles| - 1]) + [PromptFor(channelId, roles[|roles| - 1])]
  }

  /**
   * What the three calls of sendRenewalMessage do for one row: the post
   * (None when it fails, otherwise the new message's id), then saving the
   * message id, then setting waiting_response.
   */
  datatype PromptOutcome = PromptOutcome(posted: Option<string>, idSaved: bool, statusSaved: bool)

  /**
   * The table after sendRenewalMessage for row id: a failed post changes
   * nothing; after a successful one the status is waiting_response whenever
   * that UPDATE went through, even if saving the message id did not.
   */
  function AfterPrompt(t: Table, id: int, o: PromptOutcome): (t': Table)
    ensures t'.Keys == t.Keys
    ensures forall k | k in t && k != id :: t'[k] == t[k]
    ensures o.posted.None? ==> t' == t
    ensures id in t && o.posted.Some? ==>
      && t'[id].renewalStatus == (if o.statusSaved then WaitingResponse else t[id].renewalStatus)
      && t'[id].messageId == (if o.idSaved then o.posted.value else t[id].messageId)
      && t'[id] == t[id].(renewalStatus := t'[id].renewalStatus, messageId := t'[id].messageId)
  {
    match o.posted
    case None => t
    case Some(m) =>
      var t1 := if o.idSaved then WithMessageId(t, id, m) else t;
      if o.statusSaved then WithStatus(t1, id, WaitingResponse) else t1
  }

  /** The table after sendRenewalMessage for each listed row in turn. */
  function AfterPrompts(t: Table, roles: seq<UserRole>, outcomeOf: int -> PromptOutcome): (t': Table)
    ensures t'.Keys == t.Keys
  {
    if roles == [] then t
    else
      var last := roles[|roles| - 1];
      AfterPrompt(AfterPrompts(t, roles[..|roles| - 1], outcomeOf), last.id, outcomeOf(last.id))
  }

  lemma AfterPromptsStep(t: Table, roles: seq<UserRole>, outcomeOf: int -> PromptOutcome, k: nat)
    requires k < |roles|
    ensures AfterPrompts(t, roles[..k + 1], outcomeOf)
         == AfterPrompt(AfterPrompts(t, roles[..k], outcomeOf), roles[k].id, outcomeOf(roles[k].id))
  {
    assert roles[..k + 1][..k] == roles[..k];
  }

  lemma PromptsForStep(channelId: string, roles: seq<UserRole>, k: nat)
    requires k < |roles|
    ensures PromptsFor(channelId, roles[..k + 1]) == PromptsFor(channelId, roles[..k]) + [PromptFor(channelId, roles[k])]
  {
    assert roles[..k + 1][..k] == roles[..k];
  }

  /**
   * As long as no row is listed twice, in whatever order the listing comes, a
   * tick treats each row on its own: a listed row ends up exactly as one prompt leaves it, and every
   * other row is untouched.
   */
  lemma {:induction false} AfterPromptsPerRow(t: Table, roles: seq<UserRole>, outcomeOf: int -> PromptOutcome, id: int)
    requires forall i, j | 0 <= i < j < |roles| :: roles[i].id != roles[j].id
    requires id in t
    ensures (forall k | 0 <= k < |roles| :: roles[k].id != id) ==> AfterPrompts(t, roles, outcomeOf)[id] == t[id]
    ensures (exists k | 0 <= k < |roles| :: roles[k].id == id) ==>
      AfterPrompts(t, roles, outcomeOf)[id] == AfterPrompt(t, id, outcomeOf(id))[id]
  {
    if roles != [] {
      var init := roles[..|roles| - 1];
      var last := roles[|roles| - 1];
      AfterPromptsPerRow(t, init, outcomeOf, id);
      var before := AfterPrompts(t, init, outcomeOf);
      if last.id == id {
        assert forall k | 0 <= k < |init| :: init[k].id != id by {
          forall k | 0 <= k < |init| ensures init[k].id != id {
            assert init[k] == roles[k];
          }
        }
        assert before[id] == t[id];
      } else {
        if exists k | 0 <= k < |roles| :: roles[k].id == id {
          var k :| 0 <= k < |roles| && roles[k].id == id;
          assert k < |roles| - 1 && init[k] == roles[k];
        }
        if forall k | 0 <= k < |roles| :: roles[k].id != id {
          assert forall k | 0 <= k < |init| :: init[k].id != id by {
            forall k | 0 <= k < |init| ensures init[k].id != id {
              assert init[k] == roles[k];
            }
          }
        }
      }
    }
  }

  /**
   * What one tick means for a row it listed: once the prompt is posted and
   * waiting_response saved, later ticks do not select the row again; if the
   * post failed the row is still pending and selected again.
   */
  lemma TickOutcomeForRow(t: Table, now: int, roles: seq<UserRole>, outcomeOf: int -> PromptOutcome, id: int, later: int)
    requires ExpiredSet(t, now, roles)
    requires id in t && t[id].id == id && IsExpired(t[id], now)
    requires now <= later
    ensures outcomeOf(id).posted.Some? && outcomeOf(id).statusSaved ==>
      var r := AfterPrompts(t, roles, outcomeOf)[id];
      r.renewalStatus == WaitingResponse && !IsExpired(r, later)
    ensures outcomeOf(id).posted.None? ==>
      AfterPrompts(t, roles, outcomeOf)[id] == t[id] && IsExpired(t[id], later)
  {
    assert Columns(t[id]) in roles;
    var k :| 0 <= k < |roles| && roles[k] == Columns(t[id]);
    assert roles[k].id == id;
    AfterPromptsPerRow(t, roles, outcomeOf, id);
  }

  /** sendRenewalMessage */
  method SendRenewalMessage(s: Session, db: Store, cfg: Settings, role: UserRole, o: PromptOutcome)
    requires db.Valid()
    modifies s, db
    ensures db.Valid() && db.nextId == old(db.nextId) && db.notifications == old(db.notifications)
    ensures db.rows == AfterPrompt(old(db.rows), role.id, o)
    ensures SameOwners(old(db.rows), db.rows)
    ensures s.intents == old(s.intents) + [PromptFor(cfg.notificationChannelId, role)]
  {
    var posted := s.PostPrompt(cfg.notificationChannelId, role.userId, role.roleName,
                               RenewalButtonId(Yes, role.id), RenewalButtonId(No, role.id), o.posted);
    if posted.None? {
      return;
    }
    var _ := db.SetRenewalMessageID(role.id, posted.value, o.idSaved);
    var _ := db.UpdateRenewalStatus(role.id, "waiting_response", o.statusSaved);
  }

  /**
   * checkExpiredRoles: one tick. A failed query does nothing. Otherwise each
   * listed row gets exactly one prompt attempt and one timer; `timers` are
   * the rows the timers captured.
   */
  method CheckExpiredRoles(s: Session, db: Store, cfg: Settings, now: int, queryOk: bool,
                           outcomeOf: int -> PromptOutcome) returns (timers: seq<UserRole>)
    requires db.Valid()
    modifies s, db
    ensures db.Valid() && db.nextId == old(db.nextId) && db.notifications == old(db.notifications)
    ensures SameOwners(old(db.rows), db.rows)
    ensures !queryOk ==> timers == [] && db.rows == old(db.rows) && s.intents == old(s.intents)
    ensures queryOk ==> ExpiredListing(old(db.rows), now, timers)
    ensures queryOk ==> db.rows == AfterPrompts(old(db.rows), timers, outcomeOf)
    ensures queryOk ==> s.intents == old(s.intents) + PromptsFor(cfg.notificationChannelId, timers)
  {
    var listing := db.GetExpiredRoles(now, queryOk);
    if listing.Failure? {
      return [];
    }
    timers := listing.value;
    SendRenewalMessages(s, db, cfg, timers, outcomeOf);
  }

  /** checkExpiredRoles' loop: one prompt attempt per listed row, in the order listed. */
  method SendRenewalMessages(s: Session, db: Store, cfg: Settings, roles: seq<UserRole>, outcomeOf: int -> PromptOutcome)
    requires db.Valid()
    modifies s, db
    ensures db.Valid() && db.nextId == old(db.nextId) && db.notifications == old(db.notifications)
    ensures SameOwners(old(db.rows), db.rows)
    ensures db.rows == AfterPrompts(old(db.rows), roles, outcomeOf)
    ensures s.intents == old(s.intents) + PromptsFor(cfg.notificationChannelId, roles)
  {
    ghost var t0 := db.rows;
    ghost var log0 := s.intents;
    var k := 0;
    while k < |roles|
      invariant 0 <= k <= |roles|
      invariant db.Valid() && db.nextId == old(db.nextId) && db.notifications == old(db.notifications)
      invariant db.rows == AfterPrompts(t0, roles[..k], outcomeOf)
      invariant SameOwners(t0, db.rows)
      invariant s.intents == log0 + PromptsFor(cfg.notificationChannelId, roles[..k])
    {
      ghost var before := db.rows;
      SendRenewalMessage(s, db, cfg, roles[k], outcomeOf(roles[k].id));
      SameOwnersTransitive(t0, before, db.rows);
      AfterPromptsStep(t0, roles, outcomeOf, k);
      PromptsForStep(cfg.notificationChannelId, roles, k);
      k := k + 1;
    }
    assert roles[..k] == roles;
  }

  /**
   * DeleteRenewalMessage's one possible call: nothing when the stored id
   * cannot be read or is empty; otherwise the delete of exactly that message.
   */
  function PromptDeletion(t: Table, id: int, lookupOk: bool, channelId: string): (r: seq<Intent>)
    ensures r != [] <==> lookupOk && id in t && t[id].messageId != ""
    ensures r != [] ==> r == [DeleteMessage(channelId, t[id].messageId)]
  {
    if lookupOk && id in t && t[id].messageId != "" then [DeleteMessage(channelId, t[id].messageId)] else []
  }

  /** DeleteRenewalMessage. It reads the store and never clears the stored id. */
  method DeleteRenewalMessage(s: Session, cfg: Settings, roleId: int, db: Store, lookupOk: bool)
    modifies s
    ensures s.intents == old(s.intents) + PromptDeletion(db.rows, roleId, lookupOk, cfg.notificationChannelId)
  {
    var stored := db.GetRenewalMessageID(roleId, lookupOk);
    if stored.Failure? || stored.value == "" {
      return;
    }
    s.DeleteMessage(cfg.notificationChannelId, stored.value);
  }

  /** The timer acts only on a row it can read that is still waiting for an answer. */
  predicate TimeoutActs(t: Table, id: int, lookupOk: bool)
  {
    lookupOk && id in t && t[id].renewalStatus == WaitingResponse
  }

  /**
   * startRenewalTimer after its sleep. If the row is still waiting: delete
   * the prompt, revoke the captured role (a failed revoke is only logged),
   * and deactivate. In any other case nothing at all happens.
   */
  method RenewalTimeout(s: Session, db: Store, cfg: Settings, role: UserRole, o: Outcomes)
    requires db.Valid()
    modifies s, db
    ensures db.Valid() && db.nextId == old(db.nextId)
    ensures SameOwners(old(db.rows), db.rows)
    ensures !TimeoutActs(old(db.rows), role.id, o.lookupOk) ==> unchanged(db) && s.intents == old(s.intents)
    ensures TimeoutActs(old(db.rows), role.id, o.lookupOk) ==>
      && s.intents == old(s.intents)
           + PromptDeletion(old(db.rows), role.id, o.promptLookupOk, cfg.notificationChannelId)
           + [RevokeRole(cfg.guildId, role.userId, role.roleId)]
      && db.rows == (if o.writeOk then Deactivated(old(db.rows), role.id) else old(db.rows))
      && db.notifications == old(db.notifications) + 1
  {
    var current := db.GetRoleByID(role.id, o.lookupOk);
    if current.Failure? {
      return;
    }
    if current.value.renewalStatus == WaitingResponse {
      DeleteRenewalMessage(s, cfg, role.id, db, o.promptLookupOk);
      var _ := s.RevokeRole(cfg.guildId, role.userId, role.roleId, o.revokeOk);
      var _ := db.DeactivateRole(role.id, o.writeOk);
    }
  }
}
