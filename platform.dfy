/**
 * The Discord calls the bot makes, as a capability whose every call is
 * recorded. Whether a call succeeds, and the id a send returns, are
 * parameters: the server is not part of the model.
 */
module Platform {
  import opened Wrappers

  /** The ephemeral replies the interaction handlers send, one per distinct message text. */
  datatype Reply =
    | NoActiveRole              // nothing to remove
    | RemovalFailed             // removing the role failed: the revoke of remove_role, the UPDATE of "no"
    | UpdateFailed              // the UPDATE failed
    | RoleRemoved(roleName: string)
    | CheckFailed               // GetUserRole failed for a reason other than "not found"
    | AlreadyActive(roleName: string)
    | UnknownRole
    | GrantFailed
    | SaveFailed                // the INSERT failed
    | Granted(roleName: string)
    | InvalidFormat
    | InvalidRoleId
    | RecordNotFound
    | NotOwner
    | UnknownAction
    | ExtendFailed
    | RoleExtended(roleName: string, until: int)
    | Declined(roleName: string)

  datatype Intent =
    | GrantRole(guildId: string, userId: string, roleId: string)
    | RevokeRole(guildId: string, userId: string, roleId: string)
    | PostPrompt(channelId: string, userId: string, roleName: string, yesId: string, noId: string)
    | DeleteMessage(channelId: string, messageId: string)
    | ClearButtons(channelId: string, messageId: string)
    | Respond(reply: Reply)
    | SendMessage(channelId: string, content: string)
    | EditMessage(channelId: string, messageId: string, content: string)
    | FetchMessages(channelId: string, limit: int)

  /**
   * Whether each external call one handler run makes succeeds: its first
   * SELECT, its INSERT or UPDATE, the role grant, the role revoke, and the
   * read of the stored prompt id that DeleteRenewalMessage makes.
   */
  datatype Outcomes = Outcomes(
    lookupOk: bool,
    writeOk: bool,
    grantOk: bool,
    revokeOk: bool,
    promptLookupOk: bool)

  /** discordgo.Session: the log of every call made through it. */
  class Session {
    ghost var intents: seq<Intent>

    constructor ()
      ensures intents == []
    {
      intents := [];
    }

    /** GuildMemberRoleAdd */
    method GrantRole(guildId: string, userId: string, roleId: string, ok: bool) returns (success: bool)
      modifies this
      ensures intents == old(intents) + [Intent.GrantRole(guildId, userId, roleId)]
      ensures success == ok
    {
      intents := intents + [Intent.GrantRole(guildId, userId, roleId)];
      success := ok;
    }

    /** GuildMemberRoleRemove */
    method RevokeRole(guildId: string, userId: string, roleId: string, ok: bool) returns (success: bool)
      modifies this
      ensures intents == old(intents) + [Intent.RevokeRole(guildId, userId, roleId)]
      ensures success == ok
    {
      intents := intents + [Intent.RevokeRole(guildId, userId, roleId)];
      success := ok;
    }

    /** ChannelMessageSendComplex of the renewal prompt with its two buttons. */
    method PostPrompt(channelId: string, userId: string, roleName: string, yesId: string, noId: string,
                      outcome: Option<string>) returns (messageId: Option<string>)
      modifies this
      ensures intents == old(intents) + [Intent.PostPrompt(channelId, userId, roleName, yesId, noId)]
      ensures messageId == outcome
    {
      intents := intents + [Intent.PostPrompt(channelId, userId, roleName, yesId, noId)];
      messageId := outcome;
    }

    /** ChannelMessageDelete; its error is only logged by every caller. */
    method DeleteMessage(channelId: string, messageId: string)
      modifies this
      ensures intents == old(intents) + [Intent.DeleteMessage(channelId, messageId)]
    {
      intents := intents + [Intent.DeleteMessage(channelId, messageId)];
    }

    /** ChannelMessageEditComplex with an empty component list; its error is only logged. */
    method ClearButtons(channelId: string, messageId: string)
      modifies this
      ensures intents == old(intents) + [Intent.ClearButtons(channelId, messageId)]
    {
      intents := intents + [Intent.ClearButtons(channelId, messageId)];
    }

    /** InteractionRespond with an ephemeral message; its error is only logged. */
    method Respond(reply: Reply)
      modifies this
      ensures intents == old(intents) + [Intent.Respond(reply)]
    {
      intents := intents + [Intent.Respond(reply)];
    }

    /** ChannelMessageSend */
    method SendMessage(channelId: string, content: string, outcome: Option<string>) returns (messageId: Option<string>)
      modifies this
      ensures intents == old(intents) + [Intent.SendMessage(channelId, content)]
      ensures messageId == outcome
    {
      intents := intents + [Intent.SendMessage(channelId, content)];
      messageId := outcome;
    }

    /** ChannelMessages(channelId, limit, "", "", ""): the read is logged; what it returns is a parameter of the caller. */
    method FetchMessages(channelId: string, limit: int)
      modifies this
      ensures intents == old(intents) + [Intent.FetchMessages(channelId, limit)]
    {
      intents := intents + [Intent.FetchMessages(channelId, limit)];
    }

    /** ChannelMessageEdit */
    method EditMessage(channelId: string, messageId: string, content: string, ok: bool) returns (success: bool)
      modifies this
      ensures intents == old(intents) + [Intent.EditMessage(channelId, messageId, content)]
      ensures success == ok
    {
      intents := intents + [Intent.EditMessage(channelId, messageId, content)];
      success := ok;
    }
  }
}
