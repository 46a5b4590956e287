# neble_bot role lifecycle, modelled in Dafny

neble_bot is a Discord bot that hands out one of two guild roles ("Сенди-Шорс",
"ХПалето-Бэй") on a button click and keeps a row per member in the Postgres table
`user_roles`. When a grant expires, a scheduler posts a renewal prompt with "yes"/"no"
buttons. "yes" extends the grant. "no", or no answer before the renewal timer fires,
takes the role away. A status message in a stats channel lists every active grant.

This project models that lifecycle:

- `wrappers.dfy`: `Option` and `Result`.
- `text.dfy`: the standard-library string operations the core relies on, each written out:
  - `strings.Split` / `strings.Join` on one separator;
  - decimal formatting (`%d`);
  - `strconv.Atoi`, whole string, optional sign, int64 range;
  - `fmt.Sscanf("%d")`, leading integer, rest ignored;
  - byte-wise string order.
- `config.dfy`: `config/config.go`. Environment lookups with defaults. Both durations are in nanoseconds, as `time.Duration` is, and the int64 wrap-around of `n * time.Minute` is explicit.
- `models.dfy`: `database/models.go`. The row record. `renewal_status` is a datatype with the fifth value `changed` that `RemoveUserRole` writes.
- `database.dfy`: `database/db.go`.
  - The class `Store` holds the table as a map from id to row, plus the next serial id.
  - Each SQL statement is one of its methods.
  - A ghost counter records every `go db.statsUpdater()`.
  - Pure functions give the table each UPDATE leaves behind.
- `platform.dfy`: the Discord calls as a ghost log of intents (grant, revoke, post, delete, edit, send, reply, and the fetch of recent messages). The caller supplies each call's outcome.
- `scheduler.dfy`: `scheduler/scheduler.go`. The expiry tick, the prompt, the prompt's deletion, and what the renewal timer does when it fires.
- `buttons.dfy`: `handlers/buttons.go`. The dispatch, the custom-id parser and the five click handlers.
- `stats.dfy`: `stats/stats.go`.
  - the active-role query and its ordering;
  - nickname substitution;
  - the text of the status message;
  - the search for an earlier status message;
  - the cached message id that `updateStats` and `CleanupStatsMessage` maintain.
- `scenarios.dfy`: the click/timer race as the handlers called one after the other in each order, plus a repeated role selection.

The wall clock becomes an integer `now`, in nanoseconds. Every database and Discord call takes its success, or the id it returns, as a parameter (`Outcomes`, `execOk`, `queryOk`, `sent`, …).

Assumptions the code does not spell out:

- **INSERT defaults.** The INSERT at `database/db.go:32-33` leaves `is_active`, `renewal_status` and `created_at` to the schema. They are taken to be `true`, `'pending'` and the current time.
- **`QueryRow` picks.** `QueryRow` over several matching rows returns an unspecified one. The model scans ids in ascending order, and the contracts state only what the SQL guarantees:
  - `GetActiveRoleByUserID` returns some active row of the user;
  - `GetUserRole` returns a row of the user with the greatest `created_at`.
- **Columns read back.** The SELECTs do not read `message_id`, so the rows they return carry `""` there (`Columns`).
- **Scan order.** The expiry SELECT (`database/db.go:49-52`) has no ORDER BY. The model's scan lists the rows in ascending id order, and `GetExpiredRoles` and `CheckExpiredRoles` state that order (`ExpiredListing`). The lemmas about a tick (`AfterPromptsPerRow`, `TickOutcomeForRow`) assume only `ExpiredSet`: each expiring row listed once, in any order. They therefore hold whatever order the database returns.
- **Stats ordering.** `ORDER BY role_name, user_name` is taken to compare code point by code point. `ActiveQuery` states only what the ORDER BY guarantees: the result is sorted and is a rearrangement of the active rows. Rows with an equal role name and user name are left in an open order by the SQL. The model puts them in descending id order, because each row is inserted before its equals. `GetActiveRoles` and `UpdateStats` state the model's exact sequence, tie order included.

Where the intended design and the code differ, the model follows the code:

- **No staleness check on "yes"/"no".** A click is honoured whatever the row's status, even after the timer has already revoked the role (`Scenarios.TimeoutThenYes`).
- **Renewal restarts the clock.** It sets the expiry to `now + RoleDuration`, not to the old expiry plus the duration.
- **Prompt id never cleared.** No code path clears `message_id` after the prompt is deleted, so the yes/no handlers request the deletion again after a timeout.
- **Timeout and "no" look the same.** Both leave the row `rejected` and inactive.
- **`remove_role` stops on a failed revoke.** It leaves the store untouched when the revoke fails. "no" and the timer deactivate even when the revoke failed.
- **Ordering uses the stored name.** The status list is sorted by the stored `user_name`; the nickname is substituted after sorting.
- **No debounce.** There is no debounce or coalescing of status updates.
- **"Expired" is strict.** The scan selects `expires_at < now`, not `<=`.
- **"Hours" are minutes.** `ROLE_DURATION_HOURS` and `RENEWAL_DURATION_HOURS` are read as minutes.

## Model

| member | source | states |
|---|---|---|
| Config.GetEnv | config/config.go:32-37 | the variable's value when it is set and non-empty, the default otherwise |
| Config.GetEnvSet | config/config.go:32-37 | a variable set to a non-empty value is returned whatever the default |
| Config.GetDurationEnv | config/config.go:39-46 | the parsed integer when the variable is set and `Atoi` accepts it; the default when it is unset, empty or malformed; zero and negative values pass unchanged |
| Config.Wrap64 | config/config.go:27-28 | the int64 that `time.Duration(n) * time.Minute` yields: in range, congruent to the product modulo 2^64, equal to it when it fits |
| Config.Load | config/config.go:20-30 | each field is read from its own variable with its own default; the role message id starts empty |
| Config.DurationEnvRoundTrip | config/config.go:39-46 | a variable holding the decimal text of an int64 n reads back as n |
| Config.MinutesFromEnv | config/config.go:27-28 | an int64 duration; n minutes for the number n read, when n * time.Minute fits in an int64 |
| Config.LoadDurations | config/config.go:27-28 | RoleDuration is n minutes and RenewalDuration m minutes for the integers n, m in the variables, within the int64 range |
| Config.LoadDefaultDurations | config/config.go:27-28 | with both variables unset, the durations are 65 and 10 minutes |
| Config.LoadMalformedRoleDuration | config/config.go:41-45 | a ROLE_DURATION_HOURS that does not parse gives the 65-minute default |
| Text.Split | handlers/buttons.go:172 | `strings.Split` always yields at least one piece |
| Text.FormatInt | scheduler/scheduler.go:49-54 | `%d` text: a leading `-` exactly for a negative number, digits otherwise |
| Text.Atoi | config/config.go:41 | `strconv.Atoi` accepts only an optional sign followed by one or more digits and nothing else, and only int64 values; a negative result has a leading `-` |
| Text.ScanInt | handlers/buttons.go:183 | `Sscanf("%d")` needs a digit right after the optional sign, and accepts only int64 values; a negative result has a leading `-` |
| Text.HasPrefixAppend | handlers/buttons.go:23-25 | `strings.HasPrefix`: a string has every prefix it was built from, and no prefix longer than itself |
| Text.ContainsExtend | stats/stats.go:145 | `strings.Contains`: text found in a string is still found after more text is appended |
| Text.LessTrichotomy | stats/stats.go:93 | the byte-wise order ORDER BY is taken to use: two different strings are ordered one way or the other |
| Text.LessAsymmetric | stats/stats.go:93 | the byte-wise order never holds both ways |
| Text.SplitJoin | handlers/buttons.go:172 | joining the pieces of a split gives back the string, and no piece contains the separator |
| Text.AtoiFormatInt | config/config.go:41 | `strconv.Atoi` reads the decimal text of every int64 back as that number |
| Text.ScanIntFormatInt | handlers/buttons.go:183 | `Sscanf("%d")` reads the decimal text of every int64 back, whatever non-digit text follows |
| Text.FormatIntHasNoUnderscore | scheduler/scheduler.go:49-54 | the decimal text of an id never contains `_`, so the id stays one piece of the button id |
| Models.ParseStatus | database/db.go:103-111 | exactly the four names pending, waiting_response, confirmed and rejected are accepted, each as its own status; `changed` is refused |
| Models.ParseStatusName | database/db.go:103-111 | every status but `changed` is accepted under its own name |
| Database.NewRow | database/db.go:32-33 | the inserted row has the given columns, an empty message id, is active, pending and created now |
| Database.WithStatus | database/db.go:114-115 | only that row's renewal_status changes; no row is added or removed |
| Database.WithMessageId | database/db.go:238-241 | only that row's message_id changes; no row is added or removed |
| Database.Extended | database/db.go:119-123 | row id gets the new expiry, is active and pending; every other field, message_id included, and every other row is unchanged |
| Database.Deactivated | database/db.go:132-136 | row id becomes inactive and rejected; everything else is unchanged |
| Database.Reassigned | database/db.go:218-223 | every row of the user gets the new role, expiry, active, pending, created_at = now and an empty message id; no other user's row changes |
| Database.Removed | database/db.go:165-168 | every row of the user becomes inactive with status `changed`; no other row changes |
| Database.DeactivateIdempotent | database/db.go:132-136 | deactivating twice leaves the same table as once |
| Database.DeactivatedNotExpired | database/db.go:52 | a deactivated row is never selected by the expiry scan |
| Database.ExtendedExpiresAgain | database/db.go:52 | an extended row is selected again exactly when its new expiry is before now |
| Database.ReassignedKeepsOneRow | database/db.go:218-223 | UpdateUserRole keeps at most one row per user |
| Database.InsertKeepsOneRow | handlers/buttons.go:112-121 | inserting a row for a user who has none keeps at most one row per user |
| Database.SameOwnersKeepOneRow | handlers/buttons.go:159-212 | statements that keep every row's owner keep at most one row per user |
| Database.OneRowGivesOneActive | handlers/buttons.go:65-75 | at most one row per user gives at most one active row per user |
| Database.Store.constructor | database/db.go:12-29 | the store starts empty, with serial id 1 next |
| Database.Store.AddUserRole | database/db.go:31-47 | on success a row with the next serial id and an empty message id is added and the notifier fires once; on failure nothing changes and it does not fire |
| Database.Store.GetExpiredRoles | database/db.go:49-73 | a failed query returns an error; otherwise exactly the rows with expires_at < now, active and pending, each once, as read (without message_id), in ascending id order, the model's scan order |
| Database.Store.GetRoleByID | database/db.go:75-100 | the row with that id as read, "not found" when there is none, an error when the query fails |
| Database.Store.UpdateRenewalStatus | database/db.go:102-117 | a status outside the four valid ones is refused before the statement runs and changes nothing; a valid one changes only that row's status; the notifier never fires |
| Database.Store.ExtendRole | database/db.go:119-130 | the table becomes `Extended` when the statement succeeds; the notifier fires even when it fails |
| Database.Store.DeactivateRole | database/db.go:132-143 | the table becomes `Deactivated` when the statement succeeds; the notifier fires even when it fails |
| Database.Store.GetActiveRoleByUserID | database/db.go:145-163 | some active row of the user; no row and no error when the user has none |
| Database.Store.RemoveUserRole | database/db.go:165-177 | the table becomes `Removed` on success; the notifier never fires |
| Database.Store.GetUserRole | database/db.go:196-215 | a row of the user with the greatest created_at; "not found" when the user has no row |
| Database.Store.UpdateUserRole | database/db.go:218-236 | the table becomes `Reassigned` on success and the notifier fires; on failure nothing changes and it does not fire |
| Database.Store.SetRenewalMessageID | database/db.go:238-242 | only that row's message_id changes, on success; the notifier never fires |
| Database.Store.GetRenewalMessageID | database/db.go:245-253 | the stored message id of the row; an error when the row is missing or the query fails |
| Database.MessageIdRoundTrip | database/db.go:238-253 | SetRenewalMessageID(id, m) followed by GetRenewalMessageID(id) returns m |
| Scheduler.RenewalButtonId | scheduler/scheduler.go:49-54 | every prompt button id starts with `renew_` |
| Scheduler.PromptButtonsDiffer | scheduler/scheduler.go:42-60 | the prompt for a row goes to the given channel, names its member and role, and its two buttons have different ids |
| Scheduler.PromptsFor | scheduler/scheduler.go:44-70 | one prompt per role, in order, mentioning its member and role, with the buttons `renew_yes_<id>` and `renew_no_<id>` |
| Scheduler.AfterPrompt | scheduler/scheduler.go:62-81 | a failed post changes nothing; after a post the message id is stored if that write succeeded and the row is waiting_response if that write succeeded, regardless of the other; other rows are unchanged |
| Scheduler.AfterPrompts | scheduler/scheduler.go:25-39 | the tick's effect on the table keeps its set of rows |
| Scheduler.AfterPromptsPerRow | scheduler/scheduler.go:25-39 | for a listing without repeated ids, in any order, each listed row ends up as one prompt attempt on it alone leaves it; unlisted rows are untouched |
| Scheduler.TickOutcomeForRow | scheduler/scheduler.go:62-81 | for any listing of each expiring row once, in any order: after a successful post whose status write succeeds the row is waiting_response and a later tick does not select it; after a failed post the row is unchanged and a later tick selects it again |
| Scheduler.SendRenewalMessage | scheduler/scheduler.go:42-84 | the post is logged; the table becomes `AfterPrompt` of the row; every row keeps its owner |
| Scheduler.CheckExpiredRoles | scheduler/scheduler.go:23-40 | a failed query changes nothing and arms no timer; otherwise the timers are exactly the expiring rows, each once, in the model's ascending id order; each gets one prompt, in that order, and the table becomes `AfterPrompts` of them |
| Scheduler.SendRenewalMessages | scheduler/scheduler.go:34-39 | one prompt attempt per listed row, in the order listed: the prompts are logged in that order and the table becomes `AfterPrompts` of the rows |
| Scheduler.PromptDeletion | scheduler/scheduler.go:86-99 | a delete of exactly the stored prompt when the id can be read and is non-empty, nothing otherwise |
| Scheduler.DeleteRenewalMessage | scheduler/scheduler.go:86-99 | logs `PromptDeletion` and changes nothing in the store; the id is never cleared |
| Scheduler.RenewalTimeout | scheduler/scheduler.go:101-128 | when the row can be read and is still waiting_response: delete the prompt, revoke the captured role, deactivate (even after a failed revoke); otherwise nothing at all changes |
| Buttons.RouteOf | handlers/buttons.go:23-31 | `select_role_` prefixes go to selection; otherwise `renew_` prefixes and `change_role` go to the renewal handler; only `remove_role` goes to removal |
| Buttons.RoleFor | handlers/buttons.go:78-90 | a role exactly for `select_role_1` and `select_role_2` |
| Buttons.ParseRenewalId | handlers/buttons.go:172-188 | fewer than three `_`-pieces is a format error; a third piece without a leading integer is an id error; otherwise the action is the second piece, free of `_`, and the id is the int64 that `Sscanf("%d")` reads from the third piece |
| Buttons.ParseRenewalButtonId | handlers/buttons.go:172-188 | the parser recovers the answer and the row id from `renew_yes_<id>` and `renew_no_<id>` for every int64 id |
| Buttons.RenewalButtonsRouteToRenewal | handlers/buttons.go:23-31 | both prompt buttons reach the renewal handler |
| Buttons.FixedButtonsRoute | handlers/buttons.go:23-31 | the selection buttons go to selection, `remove_role` to removal, `change_role` to the renewal handler |
| Buttons.ChangeRoleIsBadFormat | handlers/buttons.go:172-177 | `change_role` always stops at the format check |
| Buttons.HandleRemoveRole | handlers/buttons.go:36-61 | `RemovalDone`: no active row: a reply and nothing else; a failed revoke: a reply and an untouched store; otherwise the row is deactivated and the notifier fires |
| Buttons.HandleRoleSelection | handlers/buttons.go:63-126 | `SelectionDone`: refused with no store or role change when the lookup fails, the latest row is active, or the button is unknown; a failed grant writes nothing; the existing row is rewritten, or a row inserted only when the user has none; a failed write revokes again; one row per user is kept |
| Buttons.HandleRenewalResponse | handlers/buttons.go:159-212 | `RenewalDone`: bad format, bad id, missing row, a member other than the owner and an unknown action each give their reply and change nothing; "yes" and "no" behave as below |
| Buttons.HandleRenewalYes | handlers/buttons.go:254-286 | the row is extended to now + RoleDuration whatever its status; a failed extension stops before any grant or cleanup; a failed re-grant is ignored |
| Buttons.HandleRenewalNo | handlers/buttons.go:288-312 | the role is revoked and the row deactivated even when the revoke failed; a failed deactivation replies and stops |
| Buttons.InteractionCreate | handlers/buttons.go:17-34 | non-button interactions and unknown ids change nothing; a selection id ends as `SelectionDone`, a renewal id as `RenewalDone` and `remove_role` as `RemovalDone`; `change_role` gets the invalid-format reply and changes nothing; every click keeps one row per user |
| Stats.InOrderTotal | stats/stats.go:90-93 | any two rows are comparable under role name then user name |
| Stats.InOrderTransitive | stats/stats.go:90-93 | the order is transitive |
| Stats.InsertSorted | stats/stats.go:90-93 | placing a row into a sorted list keeps it sorted and adds exactly that row |
| Stats.ActiveQuery | stats/stats.go:90-93 | the query result is sorted by role name, then stored user name, and is a rearrangement of the active rows |
| Stats.ActiveByIdMembers | stats/stats.go:92 | a row is listed exactly when some active row has those columns |
| Stats.ValidStoreListsActive | stats/stats.go:90-93 | in a valid store a row is listed exactly when some active row of the table has those columns |
| Stats.DisplayName | stats/stats.go:110-114 | the guild nickname when the lookup succeeds with a non-empty one, the stored name otherwise |
| Stats.Shown | stats/stats.go:102-117 | the query's rows one for one, in its order: only the user name changes, to the display name |
| Stats.StatsManager.GetActiveRoles | stats/stats.go:89-120 | a failed query is an error; otherwise `Shown`: the query's rows in the model's order, each with its display name |
| Stats.FormatStatsMessage | stats/stats.go:122-136 | the builder loop produces `StatsMessage` of the rows |
| Stats.EmptyStatsMessageLines | stats/stats.go:123-125 | with no rows the message is the header line and the "no active roles" line |
| Stats.StatsMessageLines | stats/stats.go:127-135 | otherwise it is the header line, an opening fence, one "name - role" line per row in input order, and a closing fence |
| Stats.StatsMessageHasMarker | stats/stats.go:124-145 | both forms contain the marker the search looks for |
| Stats.FirstStatsIndex | stats/stats.go:144-150 | the first message the bot wrote that contains the marker, or none; no earlier message matches |
| Stats.RenderedIsFound | stats/stats.go:138-151 | a status message the bot rendered is found by the search, at its place or before it |
| Stats.StatsManager.FindLastStatsMessage | stats/stats.go:138-151 | the search loop returns the first match's id, "" when none matches, an error when the fetch fails |
| Stats.Adopted | stats/stats.go:61-67 | a cached id is kept and the search is not consulted; only an empty cache adopts a found id |
| Stats.StatsManager.constructor | stats/stats.go:24-31 | nothing is cached at first |
| Stats.StatsManager.SetDB | stats/stats.go:153-157 | only the store reference changes |
| Stats.StatsManager.UpdateStats | stats/stats.go:49-87 | a failed query changes nothing; the recent messages are fetched exactly when the cache is empty; a cached or found id is edited and the cache kept on success; a failed edit empties the cache; a new message is sent exactly when the cache is empty then, and the cache becomes its id, or stays empty when the send fails |
| Stats.StatsManager.CleanupStatsMessage | stats/stats.go:159-171 | a delete is issued only when an id is cached |
| Scenarios.YesThenTimeout | scheduler/scheduler.go:112-127 | "yes" before the timer: the row is pending until now + RoleDuration and the role is never revoked |
| Scenarios.TimeoutThenYes | handlers/buttons.go:254-286 | the timer before "yes": revoke, then re-grant, and the row is active and pending again; the stored prompt's deletion is requested a second time |
| Scenarios.NoThenTimeout | scheduler/scheduler.go:112-127 | "no" before the timer: the row is deactivated and the role revoked exactly once |
| Scenarios.SelectTwice | handlers/buttons.go:65-75 | a second selection by the same member finds the row the first inserted, active, and changes nothing |

## Left out

- The Discord API. Every call is an intent in a ghost log, with its outcome as a parameter. Discord is not modelled; for example, it would reject the second reply the yes/no handlers send to one interaction.
- Concurrency:
  - the scheduler's ticker goroutine and the per-prompt timer goroutines (`scheduler/scheduler.go:16-20, 38`);
  - `go db.statsUpdater()`;
  - `NotifyUpdate` and the manager's mutex (`stats/stats.go:34-47`).
  The notifier is a ghost counter. The click/timer race is covered only by the orders in `Scenarios`.
- `StartScheduler`'s ticker loop. The model covers one tick.
- The sleep of `cfg.RenewalDuration` (`scheduler/scheduler.go:101`). `RenewalTimeout` may be called at any later point.
- SQL plumbing and connection setup (`database/db.go:17-29`). The server's success or failure of each statement is a parameter. Per-row `rows.Scan` errors are not modelled.
- `GetActiveRoleIDByUserID` and the commented-out change-role code (`handlers/buttons.go:128-157, 162-165, 214-252`). Neither is reachable.
- `handlers/roles.go`. The selection message, the package-global message id and `Ready` are not part of this model. Only its button ids are used.
- `main.go`. Wiring and signal handling are not part of this model.
- Date formatting of the extension reply (`handlers/buttons.go:275`). The reply carries the expiry as a number.
- The Russian reply texts other than the stats message. Replies are a datatype.
- `Stats.StatsManager.UpdateStats`: it logs the fetch of 10 messages that `findLastStatsMessage` makes, but takes whatever list comes back as a parameter. It does not model that Discord returns at most 10.
- `Stats.StatsManager.GetActiveRoles`: the `GuildMember` lookups (`stats/stats.go:110`) are reads and are not logged as intents. Their results are the `nicks` parameter.
- `Database.Store.GetActiveRoleByUserID` and `Database.Store.GetUserRole`: these do not say which row they pick when several match, because the SQL leaves that open.
- Adding `RoleDuration` to the current time does not model the saturation of Go's `time.Time.Add`; times are unbounded integers.
- Edge cases of `fmt.Sscanf("%d")` and `strconv.Atoi` beyond an optional sign and decimal digits, such as leading spaces or underscores, are not covered.
