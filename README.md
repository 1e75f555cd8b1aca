# IRonCore moderation core in Dafny

IRonCore is a Telegram group-moderation bot. This project models the parts of
it that hold sequential logic, and proves what they promise:

- **Durations** (`handlers/admin.py`): `parse_duration` reads `<digits><unit>`
  tokens (units s, m, h, d in either case) one character at a time.
  `format_duration` breaks a number of seconds into days, hours, minutes and
  seconds. The model proves the `None` cases, the token-sum rule, the
  decomposition identity and the round trip `parse(format(n)) == n`.
- **Mute bookkeeping** (`handlers/admin.py`): the duration gate of
  `mute_user`, the record it writes and the unmute job it schedules;
  `unmute_job`, `restore_mutes` and `unmute_user`. A `Moderation` object holds
  the database, the list of scheduled jobs (name, delay, payload) and a log
  of the restriction calls made on the platform.
- **Warnings** (`handlers/admin.py`): the in-memory `WARNINGS_DB` with
  `warn_user`, `ban_user` and `check_warnings`. It is keyed by user id, so
  one counter is shared by all chats. The third warning triggers a ban.
- **Database** (`database/database.py`): the four SQLite tables as maps in a
  `Store` class. Writes use upsert and delete. `get_active_mutes` returns the
  rows whose `until_date` is later than the clock.
- **Target resolution** (`handlers/group.py`): `is_group_admin` and the
  first-match order of `get_target_user`. The order is: the replied-to
  sender, then `@username`, then lookup by numeric id, then a member whose id
  text equals the argument.

Files: `wrappers.dfy` (Option), `text.dfy` (ASCII digits, decimal text,
lower-casing, `strip`, `join`), `duration.dfy`, `database.dfy`, `group.dfy`,
`admin.dfy`.

Bot API calls are modelled as effects whose success is a boolean parameter.
The clock is an integer parameter. Handlers receive the results of
`is_group_admin` and `get_target_user` as parameters (`isAdmin`, `target`).
The job queue is a list of appended jobs. A job fires when a caller passes it
to `RunUnmuteJob`.

Some defects of the code are reproduced as written. They are listed under
"## Model" next to the members that state them:

- A bare number or an unknown unit gives `None`.
- `mute_user` never cancels an earlier job for the same member.
- `mute_user` writes the record before the restriction succeeds.
- `unmute_job` deletes the record before the lift, so a failed lift still
  loses it.
- The startup query already drops expired rows. So `restore_mutes` only
  deletes rows that expired between the query and its own clock reading.
- After a successful automatic ban, `warn_user`'s history lookup fails,
  because `ban_user` already removed the entry.

## Model

| member | source | states |
|---|---|---|
| Duration.ParseDuration | handlers/admin.py:371-414 | The character loop returns exactly the value of the left-fold specification `Parsed`, and any value it returns is positive. |
| Duration.ParsedNoneCases | handlers/admin.py:373-374 | The result is `None` exactly when the input is empty, no digit is ever followed by a unit, or the total is 0. Otherwise it is positive. |
| Duration.ScanShape | handlers/admin.py:380-409 | After any prefix, the pending number is exactly the trailing run of digits. A unit was found exactly when some unit character follows a digit. |
| Duration.BareNumberIsNone | handlers/admin.py:380-414 | An all-digit input (such as "90") parses to `None`. |
| Duration.ScanSkipsSeparator | handlers/admin.py:383-385 | A non-digit that arrives with no pending digits is skipped. |
| Duration.ScanToken | handlers/admin.py:380-409 | One `<digits><unit>` token adds its number times the unit's seconds (1, 60, 3600 or 86400) and clears the pending number. |
| Duration.ScanTokens | handlers/admin.py:380-409 | Tokens joined by a digit-free separator add the sum of their values to the total. |
| Duration.ParseTokens | handlers/admin.py:371-414 | A non-empty token sequence parses to the sum of its values, or `None` when that sum is 0. |
| Duration.TrailingDigitsDropped | handlers/admin.py:380-414 | Digits at the end with no unit after them do not change the result. |
| Duration.UnknownUnitDiscards | handlers/admin.py:392-409 | A number followed by an unknown unit is discarded: the scan state is as before the number. |
| Duration.UnknownUnitExamples | handlers/admin.py:392-414 | "5x" parses to `None` (not 0), and "5x3s" parses to 3. |
| Duration.ParseDayAndHalf | handlers/admin.py:380-409 | "1d12h" and "1D12H" both parse to 129600: units are case-insensitive. |
| Duration.ParseRejectsExamples | handlers/admin.py:373-374 | "", "90" and "0s" all parse to `None`. |
| Duration.ParseOneToken | handlers/admin.py:380-413 | One token with a positive number parses to number times unit seconds. |
| Duration.ComponentsDecompose | handlers/admin.py:421-424 | For n >= 0, hours < 24, minutes < 60, seconds < 60, and d*86400 + h*3600 + m*60 + s = n. |
| Duration.FormatTokensShape | handlers/admin.py:426-436 | The parts come in the order d, h, m, s. For n > 0 every part is non-zero. For n = 0 the only part is "0s". |
| Duration.FormatTokensTotal | handlers/admin.py:416-436 | The parts are never empty and their values add up to n. |
| Duration.FormatDuration | handlers/admin.py:416-436 | `None` gives "permanently". For n >= 0 the text is the parts joined by single spaces; there is at least one part, each is a well-formed `<digits><unit>` token, and their values add up to n. |
| Duration.FormatFixedTexts | handlers/admin.py:416-436 | `None` formats as "permanently" and 0 formats as "0s". |
| Duration.ParseFormatRoundTrip | handlers/admin.py:371-436 | For every n > 0, parsing the formatted text gives back n. |
| Admin.CheckDuration | handlers/admin.py:229-252 | No duration unless there are more than one argument. The duration is the last argument, lower-cased. `None` or <= 0 is invalid, and more than 30 days is too long. Otherwise it is a number of seconds in 1..2592000. |
| Admin.TimedMuteReportRoundTrip | handlers/admin.py:254-255 | The duration text reported for an accepted mute reads back as the same number of seconds. |
| Admin.Moderation.MuteUser | handlers/admin.py:221-307 | Without an admin or a target, nothing changes. A rejected duration changes nothing. A permanent mute writes no record and schedules no job. A timed mute upserts the record at now + seconds before the restriction call, whether or not that call succeeds. Only after a successful restriction does it append exactly one job `unmute_{chat}_{user}` with delay `seconds`. Earlier jobs stay. |
| Admin.RepeatedMuteScenario | handlers/admin.py:287-317 | Muting for "5m" and then "2h" leaves two jobs with the same name (delays 300 and 7200). When the first one fires, no mute record is left and the member is unmuted early. |
| Admin.Moderation.RunUnmuteJob | handlers/admin.py:309-343 | The record is deleted first, then the lift is attempted. The record is gone whether or not the lift succeeds. |
| Admin.Moderation.RestoreMutes | handlers/admin.py:345-368 | The listed rows are exactly the table's rows later than the query clock. For each row in order, a job with delay until − now is appended if that is positive, otherwise the row's record is deleted. Nothing else changes. |
| Admin.RearmJobsSound | handlers/admin.py:351-362 | Every re-armed job has a positive delay and is the unmute job of some listed row, for that row's remaining time. |
| Admin.RearmJobsComplete | handlers/admin.py:351-362 | Every listed row still in the future gets its job. |
| Admin.RearmJobsDistinct | handlers/admin.py:351-362 | Rows with distinct keys give jobs for distinct members. |
| Admin.RestorePartition | handlers/admin.py:351-366 | Each listed row is handled by exactly one branch: re-armed if it is still in the future, deleted otherwise. |
| Admin.RestoreKeepsStaleRows | handlers/admin.py:346-366 | A row that had already expired at the query is never deleted. When both clock readings agree, nothing is deleted. |
| Admin.Moderation.UnmuteUser | handlers/admin.py:440-471 | Makes one lift call (when there is an admin and a target). Mute records and pending jobs are never touched. |
| Admin.Moderation.BanUser | handlers/admin.py:22-62 | Makes the restriction call. Only when it succeeds is the member's warning entry removed. The at-most-two-warnings invariant is kept. |
| Admin.Moderation.WarnUser | handlers/admin.py:117-167 | Appends one warning under the user id, shared by all chats. Below three it reports the count. At three it calls the ban: if the ban succeeds the history lookup fails, otherwise the numbered history is reported. Either way the entry is gone afterwards. Every member keeps at most two stored warnings. |
| Admin.ThirdWarningScenario | handlers/admin.py:128-160 | Three warnings, given in two chats, report 1, then 2, then the failed history lookup. No warnings remain. |
| Admin.WarnReason | handlers/admin.py:125 | The recorded reason is "No reason provided" when only the target is given. Otherwise it is the arguments after the target, in order, with one space between each pair. |
| Admin.NumberedFrom | handlers/admin.py:144-147 | Entry i of the history has number first + i and keeps the reason and admin of warning i. |
| Admin.Moderation.CheckWarnings | handlers/admin.py:169-188 | No target gives nothing. A history exists exactly when the member has a non-empty list. The total is the list length, and entries are numbered 1..k in insertion order. |
| Database.Store.StoreJoinDate | database/database.py:40-48 | Upserts the member's join date. Every other row is unchanged. |
| Database.Store.GetJoinDate | database/database.py:50-59 | Returns the stored value exactly when one exists, otherwise `None`. |
| Database.Store.SetWelcomeMessage | database/database.py:61-69 | Upserts per chat. The goodbye table is unchanged. |
| Database.Store.GetWelcomeMessage | database/database.py:71-80 | Returns the chat's message exactly when one is set, otherwise `None`. |
| Database.Store.SetGoodbyeMessage | database/database.py:82-90 | Upserts per chat. The welcome table is unchanged. |
| Database.Store.GetGoodbyeMessage | database/database.py:92-101 | Returns the chat's message exactly when one is set, otherwise `None`. |
| Database.WelcomeLastWriteWins | database/database.py:61-101 | Two welcome writes followed by a read return the second message. The goodbye message is unaffected. |
| Database.Store.AddMuteRecord | database/database.py:104-119 | Upserts on (chat, user). Afterwards that key maps to the new until_date, and all other rows are unchanged. |
| Database.Store.GetActiveMutes | database/database.py:121-128 | Returns every row with until_date > now, each once, and nothing else. The table is only read. |
| Database.Store.RemoveMuteRecord | database/database.py:130-137 | Deletes only the (chat, user) row. |
| Database.RemoveMuteRecordTwice | database/database.py:130-137 | Deleting a mute record removes exactly that row and keeps every other row. Deleting it again changes nothing, and deleting a missing row is a no-op. |
| Database.JoinDateLastWriteWins | database/database.py:40-59 | After two join dates are stored for a member, the read returns the second. A member never stored reads as `None`. |
| Group.IsGroupAdmin | handlers/group.py:12-17 | True exactly for the statuses "administrator" and "creator". A failed lookup gives false. |
| Group.FirstMatch | handlers/group.py:43-61 | `None` exactly when no member matches. Otherwise the result is the first matching member in list order. |
| Group.GetTargetUser | handlers/group.py:19-84 | The replied-to sender wins. With no reply and no arguments the result is `None`. Any other result is a listed member or a user the id lookup found. |
| Group.OnlyFirstArgumentCounts | handlers/group.py:38 | Only the first argument decides the target. |
| Group.UsernameRuleWins | handlers/group.py:38-45 | An "@name" argument that matches some member's username resolves to the first such member, before any id rule. |
| Group.NoUsernameNeverMatches | handlers/group.py:44 | A member without a username never matches the username rule. |
| Group.IdRules | handlers/group.py:47-72 | Without a username match: a successful numeric-id lookup wins. A failed one falls through to the first member whose id text is the target. Otherwise the result is `None`. |
| Group.NegativeIdNotLookedUp | handlers/group.py:48-60 | A negative id is never looked up by number, and only the last rule can match it. |
| Text.DecimalValueOfNatToString | handlers/admin.py:427-434 | Writing a natural number in decimal and reading it back gives the same number. |

## Left out

- Bot API calls (`restrict_chat_member`, `get_chat_member`, `get_chat_members`, `send_message`, `reply_text`, `mention_html`) are modelled as a success flag and a log of restriction calls. Replies (`reply_text`) have no flag: they are assumed to succeed. Reply texts and HTML formatting are not modelled.
- Timing and firing of the job queue are not modelled. A scheduled job is an appended (name, delay, chat, user) entry, and it fires only when passed to `RunUnmuteJob`.
- Admin.Moderation.RestoreMutes: `time.time()` is a float. The clock is an integer here. The branch test `until > t` is unaffected, because `until_date` is an integer. The modelled job delay is `until_date - now` for the integer reading, not the fractional remainder.
- Admin.Moderation.WarnUser: a warning's time is the integer clock parameter, not the float `time.time()`.
- Names the code uses without importing them are modelled with their intended behaviour: `time` in database/database.py:127, `logger` in handlers/admin.py:343 and handlers/group.py:75, and `logging` in handlers/admin.py:363 and 368. As written, each one raises at run time on the line that uses it.
- SQLite connections, the database file path, lazy table creation and `init_db` on import are not modelled. Exceptions raised by SQLite are not modelled either. A fresh `Store` stands for a new, empty database.
- Python's Unicode `isdigit`, `lower` and `strip` are reduced to ASCII.
- The notification `unmute_job` sends after a lift is not modelled, because it only calls the API.
- `kick_user`, `hard_ban`, `unban_user`, `auto_upgrade_group`, `show_usage` and the `setup_*` registrations are not modelled. Each is a single API call or handler wiring.
- handlers/info.py, IRonCore.py, handlers/web.py and handlers/web_server.py are not part of this model. They cover reply formatting, the health-check server and process startup.
- Group.GetTargetUser: the platform's member list and the id lookup are passed in as values. A lookup that raises is modelled as a missing key.
- Database.Store.StoreJoinDate: the join date is the clock reading passed in. The code stores it as ISO text from `datetime.now()` and parses it back with `fromisoformat`.
- Admin.Moderation.MuteUser: every reply is assumed to succeed. If the "Muted" reply after a successful restriction raises, the code jumps to the handler's `except` before `run_once`, so the member stays muted with a record but no unmute job. The model always appends the job when the restriction succeeds.
- Admin.Moderation.WarnUser: every reply is assumed to succeed. If the "Ban Failed" reply inside `ban_user` or the history reply raises, control reaches the `except` of the auto-ban before the `del`, and three warnings stay stored. The model always removes the entry. So the at-most-two-warnings invariant holds only under this assumption.
- Duration.ParseDuration: the digit count is unbounded. On Python 3.11 and later, `int(current_num)` raises `ValueError` for a number of more than 4300 digits, and `parse_duration` then returns `None`. The model adds the number instead. For example, 4301 digits followed by "x5s" gives `None` in the code and 5 in the model.
