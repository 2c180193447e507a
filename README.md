# bot-tempo-discord, modelled in Dafny

bot-tempo-discord is a Discord bot that measures how long each member spends in a guild's voice channels.

- **Time tracking.** A join opens a session. A leave or a switch closes it and adds its seconds to the member's weekly total. The live time of an open session counts from the later of its start and the guild's last weekly reset.
- **Goals.** Goals are thresholds of seconds, each with an optional reward role and optional required roles. The goal evaluator records an award for every goal a member reaches, grants the reward role and posts a numbered congratulation.
- **Weekly reset.** Each guild configures a weekday and a local time (UTC-3). A polling loop decides when the reset is due. The reset then:
  1. closes every open session;
  2. archives the week;
  3. drops expired history;
  4. clears the totals and the awards of resettable goals;
  5. records the reset instant.
- **Admin commands.** These add goals from free text, set the reset schedule, check or notify a goal across all members, and look up archived weeks by date prefix.
- **Giveaways.** Giveaways parse a duration and a prize with role mentions. Entry requires every listed role. When a giveaway ends, a random sample of its entrants wins.
- **Ranking.** The ranking is paged. Page one is a podium plus six rows, and every later page holds twenty rows. A button view walks the pages.

The model has one Dafny module per source file:

| Module | Models |
|---|---|
| `Database` | `core/database.py`, as the class `Store` whose fields are the tables |
| `Logic` | `core/logic.py` |
| `Scheduler` | `core/scheduler.py` |
| `Helpers` | `utils/helpers.py` |
| `Listeners` | `cogs/listeners.py` |
| `AdminCommands` | `cogs/admin_commands.py` |
| `Giveaways` | `cogs/giveaway_commands.py` |
| `GeneralCommands` | `cogs/general_commands.py` |
| `Views` | `utils/views.py` |
| `ImageGenerator` | `utils/image_generator.py` |

Two modules support the others:
- `Text` models the Python string and integer built-ins the bot relies on: `str()`, `int()`, `split`, `strip`, `lower`, `startswith`, `in` and slicing.
- `Wrappers` provides `Option` and `Result`.

Instants are whole seconds since the Unix epoch, in UTC. Local time is the fixed offset of UTC-3, and weekdays count from Monday = 0, as Python's `weekday()` does. Code that changes state is modelled imperatively:
- the store, the call-card map, the giveaway tables and the ranking view are classes whose methods modify their fields;
- the loops of the source are `while`/`for` loops with invariants, each proved against a specification function whose properties are proved as lemmas.

## Model

| member | source | states |
|---|---|---|
| Database.Duration | bot-tempo-discord-main/core/database.py:75-76 | the seconds a session credits are `end - start`, and 0 when the end precedes the start |
| Database.Credit | bot-tempo-discord-main/core/database.py:78-86 | adding a duration creates the total row when it is missing (with the duration) or adds to it; every other row is unchanged |
| Database.Store.constructor | bot-tempo-discord-main/core/database.py:9-50 | a fresh database has every table empty and satisfies the store invariant |
| Database.Store.StartSession | bot-tempo-discord-main/core/database.py:52-57 | INSERT OR REPLACE: exactly one session for (user, guild), the new one replacing any earlier start; other sessions unchanged |
| Database.Store.EndSession | bot-tempo-discord-main/core/database.py:59-93 | no session: returns None and changes no table; otherwise returns the start; with a parsable end it removes the session and credits max(0, end-start) to the total (creating the row); an unparsable end credits nothing and keeps the session |
| Database.Store.TotalTime | bot-tempo-discord-main/core/database.py:95-100 | the stored total when the user has a row, 0 when not; never negative |
| Database.Store.CurrentSessionTime | bot-tempo-discord-main/core/database.py:102-119 | 0 with no session; never negative; exactly the time since the start when no reset came after it, and exactly the time since the last reset when that came after the start |
| Database.Store.SetLogChannel | bot-tempo-discord-main/core/database.py:121-133 | the upsert replaces the channel of that kind for the guild, and `get_log_channel` then returns it |
| Database.Store.AddProhibitedChannel | bot-tempo-discord-main/core/database.py:135-139 | the channel becomes prohibited in the guild; nothing else changes |
| Database.Store.RemoveProhibitedChannel | bot-tempo-discord-main/core/database.py:141-145 | the channel is no longer prohibited in the guild; nothing else changes |
| Database.Store.ListProhibitedChannels | bot-tempo-discord-main/core/database.py:147-158 | lists exactly the channels `is_channel_prohibited` accepts for the guild |
| Database.Store.AddGoal | bot-tempo-discord-main/core/database.py:160-165 | appends one goal row with the next AUTOINCREMENT id, keeping ids increasing |
| Database.Store.RemoveGoal | bot-tempo-discord-main/core/database.py:167-172 | deletes the goal of that guild and id and every award of it in the guild, and nothing else; the goal is then not found |
| Database.Store.ListGoals | bot-tempo-discord-main/core/database.py:174-179 | the guild's goals, exactly those, as a permutation of them sorted by ascending `seconds_required` |
| Database.Store.GetGoal | bot-tempo-discord-main/core/database.py:181-186 | a goal is returned exactly when one of that guild and id exists, and it is that goal |
| Database.Store.MarkAwarded | bot-tempo-discord-main/core/database.py:188-199 | upsert: one awarded row for the key, stamped now; `has_awarded` is then true; no other row changes |
| Database.Store.UpdateGoalResetFlag | bot-tempo-discord-main/core/database.py:243-249 | rewrites `reset_on_weekly` of the matching goal only; every other row is unchanged |
| Database.Store.SetResetConfig | bot-tempo-discord-main/core/database.py:201-213 | the guild's configuration is replaced, and `get_reset_config` returns it |
| Database.Store.SetLastReset | bot-tempo-discord-main/core/database.py:215-229 | the guild's last reset is replaced, and `get_last_reset` returns it |
| Database.Store.GetRank | bot-tempo-discord-main/core/database.py:231-241 | None exactly when the user has no total row; otherwise the 1-based position of the user's first row in the descending ranking |
| Database.SortBySeconds | bot-tempo-discord-main/core/database.py:177 | `ORDER BY seconds_required ASC`: sorted, and a permutation of its input |
| Database.InsertBySeconds | bot-tempo-discord-main/core/database.py:177 | inserting a goal into a sorted list keeps it sorted and adds exactly that goal |
| Database.RankOrder | bot-tempo-discord-main/core/database.py:235 | one row per user of the guild, each carrying that user's total |
| Database.RankOrderCovers | bot-tempo-discord-main/core/database.py:235 | every user with a total row appears in the ranking |
| Database.RankOrderSorted | bot-tempo-discord-main/core/database.py:235 | the ranking is in descending order of total (`ORDER BY total_seconds DESC`) |
| Database.Best | bot-tempo-discord-main/core/database.py:235 | the user placed first ranks before every other user of the set |
| Database.GuildUsers | bot-tempo-discord-main/core/database.py:235 | exactly the users of the guild with a row in the table: a total (as `get_rank` counts them) or an open session (as `get_active_sessions` lists them) |
| Database.GuildScores | bot-tempo-discord-main/core/database.py:235 | the guild's totals, keyed by user |
| Database.WeekScores | bot-tempo-discord-main/core/scheduler.py:56-57 | exactly the users of the guild whose total is not zero, each with that total |
| Database.WithoutAwards | bot-tempo-discord-main/core/database.py:171 | exactly the awards of the given goals in the guild are removed; the others keep their values |
| Database.GuildGoals | bot-tempo-discord-main/core/database.py:177 | `WHERE guild_id=?`: exactly the guild's goals |
| Database.KeepGoals | bot-tempo-discord-main/core/database.py:170 | `DELETE FROM goals WHERE guild_id=? AND id=?`: exactly the other rows stay, in order |
| Database.FindGoal | bot-tempo-discord-main/core/database.py:184 | a goal is found exactly when one matches the guild and id |
| Database.Store.ArchiveWeeklyTimes | bot-tempo-discord-main/core/scheduler.py:56-57 | the guild's week is archived under `now`, unpinned, with one entry per user whose total is not zero |
| Database.Store.CleanupOldHistory | bot-tempo-discord-main/core/scheduler.py:81-82 | the history becomes the one with exactly the expired, unpinned weeks of the guild removed |
| Database.CleanedHistory | bot-tempo-discord-main/core/scheduler.py:81-82 | only weeks of the guild older than the retention period and not pinned are dropped; pinned weeks always stay |
| Database.Store.ActiveGuildUsers | bot-tempo-discord-main/core/scheduler.py:50 | exactly the users of the guild with an open session |
| Database.AwardedUsers | bot-tempo-discord-main/cogs/admin_commands.py:138 | exactly the users holding the goal in the guild |
| Logic.ParseIdParts | bot-tempo-discord-main/core/logic.py:49 | `{int(rid.strip()) for rid in ...}`: a set exactly when every part parses, and then exactly the parsed values; None when some part raises |
| Logic.GoalLogChannel | bot-tempo-discord-main/core/logic.py:67-69 | a notice channel exactly when a non-zero `goallog` channel is configured and exists in the guild |
| Logic.CheckAndAwardGoalsForUser | bot-tempo-discord-main/core/logic.py:11-99 | no goals, or no member: nothing changes and nothing is granted or sent; otherwise the awarded table, grants and notices are those of the loop over `list_goals` order, with the notice text built from the intended `human_hours_minutes` phrase |
| Logic.AwardGoal | bot-tempo-discord-main/core/logic.py:32-99 | one loop iteration: an awarded, too-short or role-less goal is skipped; otherwise the award is recorded, then the role is granted and the notice sent, with the intended `human_hours_minutes` phrase |
| Logic.AwardStepAwarded | bot-tempo-discord-main/core/logic.py:35-56 | one pass adds the goal's award key, stamped with the current time, exactly when it was missing and the member qualifies |
| Logic.EarnedSnoc | bot-tempo-discord-main/core/logic.py:31-56 | one more goal adds its key to the earned keys exactly when the member qualifies for it |
| Logic.AwardRunKeys | bot-tempo-discord-main/core/logic.py:31-56 | after the loop the awarded keys are the earlier ones plus the earned ones |
| Logic.AwardRunKeeps | bot-tempo-discord-main/core/logic.py:31-56 | the loop keeps every earlier award with its time |
| Logic.AwardRunAwards | bot-tempo-discord-main/core/logic.py:31-56 | after the loop the member holds exactly the earlier awards and the keys of the goals they qualify for (time and roles); earlier award times are kept |
| Logic.AwardRunNoop | bot-tempo-discord-main/core/logic.py:36-37 | when every qualifying goal is already awarded, the loop changes nothing |
| Logic.AwardRunIdempotent | bot-tempo-discord-main/core/logic.py:36-56 | running the evaluation twice with the same times awards, grants and announces nothing the second time |
| Logic.AwardStepNotices | bot-tempo-discord-main/core/logic.py:56-94 | one goal adds at most one grant and one notice; a notice names the member with an ordinal of at least 1 |
| Logic.AwardRunNotices | bot-tempo-discord-main/core/logic.py:31-99 | the loop only appends grants and notices, at most one per goal, each notice naming the member with an ordinal of at least 1 |
| Logic.ShortTimeNeverAwarded | bot-tempo-discord-main/core/logic.py:40-44 | a goal whose seconds exceed total + current is never awarded |
| Scheduler.FirstDayKey | bot-tempo-discord-main/core/scheduler.py:21-23 | the first key of `_DIAS` in dict order that the text contains, or None when it contains none |
| Scheduler.ParseDay | bot-tempo-discord-main/core/scheduler.py:16-24 | any weekday returned lies in 0..6 |
| Scheduler.ParseDayKey | bot-tempo-discord-main/core/scheduler.py:14-24 | each abbreviation of `_DIAS` parses to its weekday |
| Scheduler.ParseDayDigit | bot-tempo-discord-main/core/scheduler.py:18-20 | the digits 0..6 parse to themselves |
| Scheduler.ParseDaySeven | bot-tempo-discord-main/core/scheduler.py:18-24 | "7" is rejected: out of range and containing no key |
| Scheduler.ParseDaySabadoAccent | bot-tempo-discord-main/core/scheduler.py:14-24 | "sábado" is rejected: its accent keeps it from containing "sab" |
| Scheduler.ParseDayPlain | bot-tempo-discord-main/core/scheduler.py:18 | strip and lower leave text without spaces or capitals unchanged |
| Scheduler.NextWeeklyDtOnSchedule | bot-tempo-discord-main/core/scheduler.py:26-42 | the next reset is strictly after now, at most a week later, on the configured local weekday at exactly hour:minute |
| Scheduler.NextWeeklyDtIsFirst | bot-tempo-discord-main/core/scheduler.py:26-42 | no scheduled instant lies strictly between now and the next reset |
| Scheduler.SameScheduleWholeWeeks | bot-tempo-discord-main/core/scheduler.py:31-35 | two instants on the same schedule lie a whole number of weeks apart |
| Scheduler.ShouldFireAsWrittenNever | bot-tempo-discord-main/core/scheduler.py:124-131 | as written, the fire condition is false for every now, configuration and last reset |
| Scheduler.PrevWeeklyDtIsLatest | bot-tempo-discord-main/core/scheduler.py:26-42 | the corrected target is the latest scheduled instant at or before now |
| Scheduler.ShouldFireOncePerWeek | bot-tempo-discord-main/core/scheduler.py:128-131 | with the corrected condition, a reset recorded at now is not due again before the next scheduled instant |
| Scheduler.ShouldFireNextWeek | bot-tempo-discord-main/core/scheduler.py:128-131 | with the corrected condition, the reset is due again once the next scheduled instant is reached |
| Scheduler.NotDueAfterReset | bot-tempo-discord-main/core/scheduler.py:128-131 | a reset recorded at now is not due at now |
| Scheduler.DropSessions | bot-tempo-discord-main/core/scheduler.py:53-54 | exactly the sessions of the given users in the guild are gone; the others are unchanged |
| Scheduler.FlushTotals | bot-tempo-discord-main/core/scheduler.py:53-54 | each flushed user's total gains the session's time up to now; every other total is unchanged |
| Scheduler.UserKeys | bot-tempo-discord-main/core/scheduler.py:53-54 | exactly the (user, guild) keys of the users |
| Scheduler.FlushLoopStep | bot-tempo-discord-main/core/scheduler.py:53-54 | ending one more user's session moves the flush one user further |
| Scheduler.WithoutGuild | bot-tempo-discord-main/core/scheduler.py:87 | `DELETE FROM total_times WHERE guild_id=?`: exactly the guild's rows are gone |
| Scheduler.ResettableGoalIds | bot-tempo-discord-main/core/scheduler.py:85-88 | exactly the ids of the guild's goals with `reset_on_weekly` set |
| Scheduler.RetentionDays | bot-tempo-discord-main/core/scheduler.py:60-62 | the configured retention, or 90 days when there is no configuration or no value |
| Scheduler.CloseNextSession | bot-tempo-discord-main/core/scheduler.py:53-54 | one loop turn: one pending user's session is ended, and the flush invariant is kept |
| Scheduler.FlushSessions | bot-tempo-discord-main/core/scheduler.py:50-54 | every open session of the guild is closed and credited up to now; other guilds are untouched |
| Scheduler.ClearWeek | bot-tempo-discord-main/core/scheduler.py:85-92 | the guild's totals are deleted, along with the awards of its resettable goals and only those |
| Scheduler.WeeklyResetRunForGuild | bot-tempo-discord-main/core/scheduler.py:44-102 | the tables after the run are `ResetRun` of the tables before, for a run that raises at `failAt` or completes |
| Scheduler.RunAfterFlush | bot-tempo-discord-main/core/scheduler.py:56-102 | the rest of the run after the flush |
| Scheduler.RunAfterArchive | bot-tempo-discord-main/core/scheduler.py:59-102 | the rest of the run after the archive |
| Scheduler.RunAfterCleanup | bot-tempo-discord-main/core/scheduler.py:84-102 | the rest of the run after the cleanup |
| Scheduler.ResetArchivesFlushedWeek | bot-tempo-discord-main/core/scheduler.py:50-82 | the sessions are closed before the archive, so the archived week holds the open sessions' time, one entry per user whose flushed total is not zero; with a non-negative retention (90 days by default, scheduler.py:62) the week survives the cleanup; other guilds keep their sessions |
| Scheduler.NegativeRetentionDropsWeek | bot-tempo-discord-main/core/scheduler.py:56-82 | a negative retention, which `set_historico` accepts, makes the cleanup of the same run delete the week it has just archived |
| Scheduler.FlushedWeek | bot-tempo-discord-main/core/scheduler.py:53-57 | the week archived after the flush holds exactly the users whose flushed total (total plus the open session up to now) is not zero, with that total |
| Scheduler.ResetRunSessions | bot-tempo-discord-main/core/scheduler.py:49-53 | a completed run closes every session of the guild and keeps the other guilds' sessions |
| Scheduler.ResetRunTotals | bot-tempo-discord-main/core/scheduler.py:49-86 | a completed run deletes every total of the guild and keeps the other guilds' totals with their values |
| Scheduler.FlushStepOthers | bot-tempo-discord-main/core/scheduler.py:49-53 | closing one guild's sessions leaves every other guild's totals as they were |
| Scheduler.ResetRunCompletes | bot-tempo-discord-main/core/scheduler.py:85-98 | a completed run deletes every total of the guild and only the awards of resettable goals, keeps other rows, and records now as the last reset |
| Scheduler.ResetRunNone | bot-tempo-discord-main/core/scheduler.py:44-98 | a completed run performs every step in source order |
| Scheduler.ResetRunFails | bot-tempo-discord-main/core/scheduler.py:100-102 | a run that raises leaves `last_reset` unchanged; one that raises during the flush changes nothing |
| Scheduler.ResetRunLastReset | bot-tempo-discord-main/core/scheduler.py:98-102 | `last_reset` becomes now exactly when the run completes, and changes for no other guild |
| Scheduler.AfterArchiveKeeps | bot-tempo-discord-main/core/scheduler.py:59-92 | after the archive the sessions stay and only the cleanup touches the history |
| Scheduler.AfterCleanupKeeps | bot-tempo-discord-main/core/scheduler.py:84-98 | after the cleanup neither sessions nor history change |
| Scheduler.TickRunSettles | bot-tempo-discord-main/core/scheduler.py:109-131 | after one pass, no guild whose run completed is still due at the same instant |
| Scheduler.SchedulerTick | bot-tempo-discord-main/core/scheduler.py:112-133 | one polling pass runs the reset of every due guild, as `TickRun` states, with the corrected fire condition |
| Helpers.HmsParts | bot-tempo-discord-main/utils/helpers.py:36-37 | h·3600 + m·60 + sec = s with 0 ≤ m, sec < 60 |
| Helpers.FmtHmsFieldWidth | bot-tempo-discord-main/utils/helpers.py:38 | every field is printed with at least two characters |
| Helpers.FmtHmsRoundTrip | bot-tempo-discord-main/utils/helpers.py:31-38 | reading the clock text back gives the seconds, for every non-negative count |
| Helpers.Pad2TwoDigits | bot-tempo-discord-main/utils/helpers.py:38 | a field below 100 prints as exactly two digits |
| Helpers.Truncate | bot-tempo-discord-main/utils/helpers.py:44-47 | "" for empty text, the text when it fits, otherwise the first `max-1` characters (Python slice) followed by "..." |
| Helpers.UnitPlural | bot-tempo-discord-main/utils/helpers.py:55-64 | the unit word takes the plural "s" exactly when its count is not 1 |
| Helpers.HumanHoursMinutesAsWrittenIgnoresInput | bot-tempo-discord-main/utils/helpers.py:49-52 | as written, every input gives "0 minutos" |
| Helpers.HumanHoursMinutesRoundTrip | bot-tempo-discord-main/utils/helpers.py:49-64 | the intended phrase reads back as (s div 3600, (s mod 3600) div 60), in the "H e M", "H" or "M" form |
| Listeners.ClassifyExclusive | bot-tempo-discord-main/cogs/listeners.py:34-36 | join, leave and switch exclude each other; none of them holds exactly when the channel stays the same |
| Listeners.SwitchIsLeaveThenJoin | bot-tempo-discord-main/cogs/listeners.py:39-55 | a switch is a leave followed by a join at the same instant |
| Listeners.LeaveCredits | bot-tempo-discord-main/cogs/listeners.py:39-40 | after a leave there is no session, and the closed session's non-negative time is added to the total; nothing else changes |
| Listeners.JoinOpens | bot-tempo-discord-main/cogs/listeners.py:54-55 | after a join or switch the member has a session in the new channel from now |
| Listeners.StayKeeps | bot-tempo-discord-main/cogs/listeners.py:34-55 | an update that keeps the channel changes no table |
| Listeners.ExitDurationAsWrittenIsZero | bot-tempo-discord-main/cogs/listeners.py:45-52 | as written, every exit card reports 0 seconds, which differs from the real duration of any session of positive length |
| Listeners.ExitDurationIsCredited | bot-tempo-discord-main/cogs/listeners.py:45-52 | the intended exit duration is exactly the time the leave credited |
| Listeners.CallCards.constructor | bot-tempo-discord-main/cogs/listeners.py:18-21 | the card map starts empty |
| Listeners.CallCards.EnsureCard | bot-tempo-discord-main/cogs/listeners.py:62-103 | with the corrected card rendering: `setdefault` creates the guild's map; with a call log, a missing card or a failed edit stores the new message; other guilds are unchanged |
| Listeners.CallCards.EnsureCardAsWritten | bot-tempo-discord-main/cogs/listeners.py:62-106 | as written the card rendering raises before any send, so only the `setdefault` of the guild's map takes effect |
| Listeners.SetDefault | bot-tempo-discord-main/cogs/listeners.py:64 | the guild gets an empty map when it had none; every existing guild map is kept |
| Listeners.NoCardAsWritten | bot-tempo-discord-main/cogs/listeners.py:62-150 | as written, after any sequence of joins, exits and sweeps every guild's map is empty and no member has a card |
| Listeners.CallCards.MarkExit | bot-tempo-discord-main/cogs/listeners.py:109-112 | the member's card is popped; the result says whether there was one |
| Listeners.CallCards.RemoveStale | bot-tempo-discord-main/cogs/listeners.py:144-150 | exactly the cards of members no longer in a call are removed, and their messages returned for deletion |
| Listeners.KeepUsers | bot-tempo-discord-main/cogs/listeners.py:145-147 | the cards of exactly the members still in a call remain |
| Listeners.StaleCards | bot-tempo-discord-main/cogs/listeners.py:145-150 | exactly the messages of members no longer in a call |
| Listeners.OnVoiceStateUpdate | bot-tempo-discord-main/cogs/listeners.py:27-60 | bots change nothing; otherwise the tables follow `HandleVoice`; with the corrected card rendering, an exit card is written exactly when a leave or switch closes a session of a member with a card, with the intended duration and the new total, and a join leaves a card |
| AdminCommands.FirstDigits | bot-tempo-discord-main/cogs/admin_commands.py:57-62 | the index of the first all-digit token, or None when there is none |
| AdminCommands.Unquote | bot-tempo-discord-main/cogs/admin_commands.py:67 | one pair of surrounding double quotes is removed, and otherwise the name is unchanged |
| AdminCommands.RoleMentionsParse | bot-tempo-discord-main/cogs/admin_commands.py:72-77 | role mentions followed by a flag give back exactly the mentioned ids, in order, and that flag |
| AdminCommands.FlagToken | bot-tempo-discord-main/cogs/admin_commands.py:76 | the flag is "true" or "false" in some letter case, and it is either the default "true" or one of the tokens |
| AdminCommands.ParseTokens | bot-tempo-discord-main/cogs/admin_commands.py:57-77 | missing seconds exactly when no token is all digits; an accepted command has a non-empty name and seconds read from a digit token, and no required roles without a reward role |
| AdminCommands.RoleCsv | bot-tempo-discord-main/cogs/admin_commands.py:75 | the column is NULL ("") exactly when there are no required roles |
| AdminCommands.AddGoalCmd | bot-tempo-discord-main/cogs/admin_commands.py:56-85 | the result of the loop-based search agrees with `ParseAddGoal`; an accepted command appends exactly one goal row and a refused one changes nothing |
| AdminCommands.ParseAddGoalRoundTrip | bot-tempo-discord-main/cogs/admin_commands.py:57-77 | a typed name, seconds, role mentions and flag parse back to exactly those parts |
| AdminCommands.UnquoteQuoted | bot-tempo-discord-main/cogs/admin_commands.py:67 | a name typed in double quotes is stored without them |
| AdminCommands.RoleCsvRoundTrip | bot-tempo-discord-main/cogs/admin_commands.py:75 | the stored required-roles column parses, through the goal check's parser, to the set of the typed ids |
| AdminCommands.ParseClock | bot-tempo-discord-main/cogs/admin_commands.py:181-182 | every accepted time has 0 ≤ hh < 24 and 0 ≤ mm < 60 |
| AdminCommands.SetResetArgs | bot-tempo-discord-main/cogs/admin_commands.py:176-185 | a bad day is reported exactly when `_parse_day` rejects the day; an accepted configuration has weekday 0..6, hour 0..23 and minute 0..59 |
| AdminCommands.ParseClockText | bot-tempo-discord-main/cogs/admin_commands.py:181-188 | a printed `hh:mm` reads back exactly when it is in range |
| AdminCommands.SetResetRoundTrip | bot-tempo-discord-main/cogs/admin_commands.py:176-188 | every stored configuration is accepted unchanged when typed back as its day abbreviation and printed time |
| AdminCommands.SetResetCmd | bot-tempo-discord-main/cogs/admin_commands.py:175-188 | an accepted configuration replaces the guild's; a refused one changes nothing |
| AdminCommands.GoalResetFlagIgnoresCase | bot-tempo-discord-main/cogs/admin_commands.py:169 | the truthiness of the value does not depend on letter case |
| AdminCommands.SetGoalResetCmd | bot-tempo-discord-main/cogs/admin_commands.py:164-171 | an unknown goal changes nothing; a known one gets flag = lowercased value in {"1","true","yes","y","sim"} |
| AdminCommands.Effective | bot-tempo-discord-main/cogs/admin_commands.py:231-233 | the effective time (total plus live session) is never negative |
| AdminCommands.CheckRows | bot-tempo-discord-main/cogs/admin_commands.py:220-238 | the two lists together hold no more entries than there are members |
| AdminCommands.CheckRowsPartition | bot-tempo-discord-main/cogs/admin_commands.py:220-238 | the considered members are partitioned: each is in exactly the list its effective time selects, with that time, and nobody else is listed |
| AdminCommands.CheckGoalCmd | bot-tempo-discord-main/cogs/admin_commands.py:209-238 | an unknown goal gives no report; otherwise the lists the loop builds are `CheckRows` of the goal |
| AdminCommands.Shown | bot-tempo-discord-main/cogs/admin_commands.py:240-251 | a prefix of at most 25 lines and the count of the rest, which is non-zero only when 25 are shown |
| AdminCommands.EntryLines | bot-tempo-discord-main/cogs/admin_commands.py:235-237 | one line per entry |
| AdminCommands.Chunks | bot-tempo-discord-main/cogs/admin_commands.py:255 | pieces of at most n characters, all but the last exactly n, whose concatenation is the text |
| AdminCommands.MentionMessages | bot-tempo-discord-main/cogs/admin_commands.py:253-258 | nothing is sent exactly when nobody is missing; the messages concatenate to the header and the space-joined mentions; every message after the first holds 1 to 1900 characters |
| AdminCommands.RoleToGive | bot-tempo-discord-main/cogs/admin_commands.py:122 | a role exactly when the goal has a reward role the guild holds, and then that role |
| AdminCommands.NewlyAwarded | bot-tempo-discord-main/cogs/admin_commands.py:124-137 | only members of the list, in order |
| AdminCommands.NewlyAwardedExactly | bot-tempo-discord-main/cogs/admin_commands.py:125-137 | the first loop awards exactly the non-bot members without the role whose time reaches the goal and whose grant succeeds |
| AdminCommands.AwardAllRows | bot-tempo-discord-main/cogs/admin_commands.py:134 | marking a list of users adds exactly their keys, stamped now, and leaves every other row |
| AdminCommands.AwardQualified | bot-tempo-discord-main/cogs/admin_commands.py:122-137 | the loop awards the members `NewlyAwarded` selects, or nobody when there is no reward role, and marks exactly those |
| AdminCommands.Notices | bot-tempo-discord-main/cogs/admin_commands.py:144-159 | at most one notice per winner |
| AdminCommands.NoticesOrdinals | bot-tempo-discord-main/cogs/admin_commands.py:144-155 | each notice names the winner at the position its ordinal gives, and the ordinals increase |
| AdminCommands.NoticesComplete | bot-tempo-discord-main/cogs/admin_commands.py:144-155 | every winner who is found and reached gets a notice with their place i + 1 |
| AdminCommands.NotifyWinners | bot-tempo-discord-main/cogs/admin_commands.py:143-160 | the notices are `Notices`, and successes plus failures count every winner |
| AdminCommands.FirstWithPrefix | bot-tempo-discord-main/cogs/admin_commands.py:344 | the first position whose date starts with the text, or None when none does |
| AdminCommands.HistoryTarget | bot-tempo-discord-main/cogs/admin_commands.py:313-318 | the loop with `break` finds the same date as the `next(...)` of the pin commands |
| Giveaways.UnitSeconds | bot-tempo-discord-main/cogs/giveaway_commands.py:19-27 | each unit is worth 1, 60, 3600 or 86400 seconds |
| Giveaways.DigitRun | bot-tempo-discord-main/cogs/giveaway_commands.py:15 | `\d+` matches the longest leading run of digits |
| Giveaways.ParseDuration | bot-tempo-discord-main/cogs/giveaway_commands.py:14-17 | a duration is accepted only when the text starts with a digit and has a unit after it, and only when it is below `timedelta`'s limit of 999999999 days |
| Giveaways.ParseDurationOf | bot-tempo-discord-main/cogs/giveaway_commands.py:14-27 | digits, a unit letter in either case and any trailing text give value × 1, 60, 3600 or 86400 seconds, or `TooLong` (the `OverflowError` of `timedelta`) when that reaches 999999999 days |
| Giveaways.DaysLimit | bot-tempo-discord-main/cogs/giveaway_commands.py:14-27 | "999999999d" is the longest accepted duration; "1000000000d" overflows |
| Giveaways.ParseDurationNeedsDigit | bot-tempo-discord-main/cogs/giveaway_commands.py:15-17 | text that does not start with a digit is malformed (`ValueError`) |
| Giveaways.StripMention | bot-tempo-discord-main/cogs/giveaway_commands.py:87 | `strip("<@&>")` leaves no mention character at either end |
| Giveaways.RoleTagValue | bot-tempo-discord-main/cogs/giveaway_commands.py:85-88 | a role mention starts with "<@&" and reads back as its id |
| Giveaways.SplitPrize | bot-tempo-discord-main/cogs/giveaway_commands.py:81-92 | the words and roles together are no more than the parts |
| Giveaways.SplitParts | bot-tempo-discord-main/cogs/giveaway_commands.py:81-92 | the loop over the parts ends with exactly the words and role ids `SplitPrize` defines |
| Giveaways.SplitPrizeWords | bot-tempo-discord-main/cogs/giveaway_commands.py:84-92 | the prize words are exactly the parts not starting with "<@&" |
| Giveaways.SplitPrizeRoundTrip | bot-tempo-discord-main/cogs/giveaway_commands.py:81-92 | prize words followed by role mentions split back into exactly those words and those ids |
| Giveaways.ParseCreate | bot-tempo-discord-main/cogs/giveaway_commands.py:70-99 | a bad duration is reported exactly when it does not parse; a duration or an end beyond `datetime`'s range (year 9999) is an overflow; an accepted giveaway has at least 1 winner, a non-empty prize and ends at now + duration, within that range |
| Giveaways.EntryCheck | bot-tempo-discord-main/cogs/giveaway_commands.py:37-45 | entry is allowed exactly when every required role is held; a refusal lists the missing roles, non-empty and none of them held |
| Giveaways.DrawSize | bot-tempo-discord-main/cogs/giveaway_commands.py:150 | `min(winner_count, len(participants))` |
| Giveaways.Draw | bot-tempo-discord-main/cogs/giveaway_commands.py:147-151 | `random.sample`: that many distinct participants, none when nobody joined |
| Giveaways.GiveawayStore.constructor | bot-tempo-discord-main/cogs/giveaway_commands.py:58-61 | no giveaway is active |
| Giveaways.CheckCreate | bot-tempo-discord-main/cogs/giveaway_commands.py:70-99 | the checks as the command runs them, with the prize/role loop, give exactly the result of `ParseCreate`'s checks on the parsed duration and the split words |
| Giveaways.GiveawayStore.CreateGiveawayCmd | bot-tempo-discord-main/cogs/giveaway_commands.py:68-119 | the loop splitting the prize agrees with `ParseCreate`, overflow included; an accepted giveaway is stored under its message and a refused one changes nothing |
| Giveaways.GiveawayStore.EntryButton | bot-tempo-discord-main/cogs/giveaway_commands.py:35-56 | a refused entry lists the missing roles and changes nothing; an allowed one adds the user to the entrants |
| Giveaways.GiveawayStore.EndOne | bot-tempo-discord-main/cogs/giveaway_commands.py:129-175 | an unreachable giveaway is dropped; otherwise it ends with a valid draw of its entrants |
| Giveaways.GiveawayStore.EndChecker | bot-tempo-discord-main/cogs/giveaway_commands.py:124-178 | exactly the finished giveaways end and are removed, each dropped or drawn validly; the unfinished ones stay unchanged |
| ImageGenerator.Split | bot-tempo-discord-main/utils/image_generator.py:140-143 | the divmod chain reconstructs the seconds with h < 24, m < 60, s < 60, and there are days exactly from 86400 on |
| ImageGenerator.FmtHmsLongReads | bot-tempo-discord-main/utils/image_generator.py:140-147 | reading the text back gives the seconds, minus the dropped seconds field in the days form |
| ImageGenerator.FieldReads | bot-tempo-discord-main/utils/image_generator.py:144-147 | a field reads back as its value times its unit |
| ImageGenerator.Indices | bot-tempo-discord-main/utils/image_generator.py:223-225 | the row indices 0..n-1 in order |
| ImageGenerator.PodiumRows | bot-tempo-discord-main/utils/image_generator.py:197-208 | podium slot k shows row {0:1, 1:0, 2:2}[k], drawn exactly when that row exists |
| ImageGenerator.ListRows | bot-tempo-discord-main/utils/image_generator.py:210-222 | the page-one list shows exactly the existing rows 3..8, each in column 0 iff i-3 < 3 and line (i-3) mod 3 |
| ImageGenerator.ListCellsDistinct | bot-tempo-discord-main/utils/image_generator.py:215-216 | no two list rows share a cell |
| ImageGenerator.PageOneRows | bot-tempo-discord-main/utils/image_generator.py:197-222 | page one draws exactly the existing rows 0..8, without rank labels |
| ImageGenerator.WinnerInMiddle | bot-tempo-discord-main/utils/image_generator.py:198-202 | the first-ranked row is drawn in the middle podium slot |
| ImageGenerator.LaterPageRows | bot-tempo-discord-main/utils/image_generator.py:223-236 | page p ≥ 2 draws exactly rows 9+(p-2)·20 up to 20 more, at column i div 10 and line i mod 10, labelled rank index+1, in distinct cells |
| ImageGenerator.FirstOpen | bot-tempo-discord-main/utils/image_generator.py:75 | the position of the first goal not yet awarded |
| ImageGenerator.NextGoal | bot-tempo-discord-main/utils/image_generator.py:75 | None exactly when no list is given or every goal is awarded; otherwise the first unawarded goal in list order |
| GeneralCommands.TotalPages | bot-tempo-discord-main/cogs/general_commands.py:68-72 | there is always at least one page |
| GeneralCommands.PageOf | bot-tempo-discord-main/cogs/general_commands.py:68-72 | the page each row is drawn on, from 1 |
| GeneralCommands.RowOnOnePage | bot-tempo-discord-main/cogs/general_commands.py:68-72 | each row of the ranking is drawn on exactly one page, between 1 and `total_pages` |
| GeneralCommands.LastPageDrawsARow | bot-tempo-discord-main/cogs/general_commands.py:68-72 | the last page is never blank |
| GeneralCommands.PagesWithRows | bot-tempo-discord-main/cogs/general_commands.py:68-72 | the pages that draw a row are exactly 1..`total_pages` |
| GeneralCommands.TopTempo | bot-tempo-discord-main/cogs/general_commands.py:56-79 | no card exactly when the guild has no totals; otherwise the ranking rows and `total_pages` for them |
| GeneralCommands.GoalCards | bot-tempo-discord-main/cogs/general_commands.py:30-38 | one card per goal of `list_goals`, in order, marked with whether the user has it |
| GeneralCommands.NoNextGoal | bot-tempo-discord-main/cogs/general_commands.py:30-38 | the stats card shows no next goal exactly when the user holds every goal of the guild |
| GeneralCommands.NextGoalIsCheapestOpen | bot-tempo-discord-main/cogs/general_commands.py:30-38 | the next goal is a goal the user lacks, needing no more seconds than any other such goal |
| Views.PageLabelReads | bot-tempo-discord-main/utils/views.py:29 | the label "page / total" splits into three words whose first and last read back as the page and the total |
| Views.PrevUndoesNext | bot-tempo-discord-main/utils/views.py:43-63 | away from the ends, "previous" undoes "next" and vice versa |
| Views.NextTimesFrom | bot-tempo-discord-main/utils/views.py:58-63 | k presses of "next" reach min(page + k, total): every page is reachable |
| Views.EveryPageDrawsRows | bot-tempo-discord-main/utils/views.py:13-63 | every page the view can show, for a non-empty ranking, draws some row |
| Views.RankingView.constructor | bot-tempo-discord-main/utils/views.py:13-20 | starts on page 1 with the buttons synced and the page in range |
| Views.RankingView.UpdateButtons | bot-tempo-discord-main/utils/views.py:22-29 | "previous" is disabled iff page = 1, "next" iff page = total, and the label is "page / total" |
| Views.RankingView.Previous | bot-tempo-discord-main/utils/views.py:43-48 | moves back only when page > 1, then syncs the buttons and redraws; otherwise nothing changes; 1 ≤ page ≤ total is preserved |
| Views.RankingView.Next | bot-tempo-discord-main/utils/views.py:58-63 | moves on only when page < total, then syncs the buttons and redraws; otherwise nothing changes; 1 ≤ page ≤ total is preserved |
| Views.RankingView.OnTimeout | bot-tempo-discord-main/utils/views.py:65-76 | every button is disabled; the page and the label stay |
| Text.ParseNatToString | bot-tempo-discord-main/core/scheduler.py:19 | `int(str(n)) == n` for natural numbers |
| Text.SplitWsJoin | bot-tempo-discord-main/cogs/admin_commands.py:57 | `" ".join(ts).split() == ts` for whitespace-free tokens |
| Text.Pad2RoundTrip | bot-tempo-discord-main/utils/helpers.py:38 | `f"{i:02d}"` of a non-negative number is digits reading back as the number |

## Left out

- Discord I/O is left out, except where the modelled operation depends on it; there the effects are parameters. This covers sending, editing and deleting messages, embeds, `add_roles`, member, role and channel lookups, and `on_command_error`.
- The wall clock (`datetime.now`, `now_iso_utc`) is a `now` parameter.
- ISO-8601 parsing is not modelled. Timestamps are integers, and an unparsable end of `end_session` is `None`.
- IANA time zones are not modelled: local time is the fixed UTC-3 offset.
- Floating point is left out: the progress bars at cogs/listeners.py:81, cogs/general_commands.py:37 and utils/image_generator.py:117-131.
- PIL drawing, fonts, avatar HTTP fetches and `_resize_and_crop_square` are rendering and network work. The card layout is modelled as placements of row indices into slots.
- cogs/music_commands.py (ffmpeg and yt-dlp playback) is not part of this model.
- Concurrency and pacing are left out: `tasks.loop`, the 60-second poll, `asyncio.sleep(1)`, `before_loop`. The scheduler is modelled as one pass, and the call-card loop as its stale-card removal.
- Broken wiring is not modelled; each function is modelled as defined.
  - listeners imports `_check_and_award_goals_for_user`, which logic.py does not define, so the goal check of cogs/listeners.py:43 and 141 is not part of `Listeners.OnVoiceStateUpdate`.
  - listeners calls `fetch_avatar_bytes(url)` with one argument (cogs/listeners.py:84 and 116), but utils/helpers.py:68 takes the HTTP session first. The `TypeError` is caught at cogs/listeners.py:105 and 124, before the card is drawn, sent or edited. `Listeners.CallCards.EnsureCard` and the exit card of `Listeners.OnVoiceStateUpdate` run as if the call were correct; `Listeners.NoCardAsWritten` states the as-written outcome, which this cause and the `buf.seak` finding both lead to.
  - The scheduler calls `_weekly_reset_run_for_guild(guild)` with one argument. `Scheduler.SchedulerTick` runs the reset as if it were called correctly.
- Scheduler.SchedulerTick: fires on the corrected fire condition `ShouldFire` (see Findings); as written no reset ever fires, which `Scheduler.ShouldFireAsWrittenNever` states.
- Logic.CheckAndAwardGoalsForUser: the goal notice uses the corrected `Helpers.HumanHoursMinutes` (see Findings); as written every notice says "0 minutos", which `Helpers.HumanHoursMinutesAsWrittenIgnoresInput` states.
- Logic.AwardGoal: the same corrected phrase as `Logic.CheckAndAwardGoalsForUser`.
- Store functions whose bodies are not in the repository are modelled by their call sites. These are `archive_weekly_times`, `cleanup_old_history`, `get_history_config`, `get_active_sessions` and `get_awarded_users`.
  - `get_awarded_users` returns its users in an order the source does not show, so `AdminCommands.NotifyWinners` takes the winners as a sequence.
  - `get_weekly_history`, `get_all_history_dates`, `toggle_pin_history`, `get_history_by_date` and `set_history_config` are left out. `AdminCommands.HistoryTarget` takes the date list as a parameter.
- `Database.Store.GetRank`: SQLite leaves the order of equal totals unspecified; the model breaks ties by ascending user id.
- `Scheduler.WeeklyResetRunForGuild`: a fault while closing sessions is modelled as happening before the first session is closed.
- The ranking post of the reset (scheduler.py:64-79) and the goal-log notice (scheduler.py:94-96) are modelled only as steps that may raise.
- The card refresh for each member in `update_call_cards` (listeners.py:137-142) is a Discord effect, and so is the drawing of the join and exit cards. `Listeners.CallCards.EnsureCard` keeps only the message map.
- Listeners.CallCards.EnsureCard: models a correct avatar fetch and card rendering. As written two faults each stop the card before it is stored: the one-argument `fetch_avatar_bytes` call (see "Broken wiring") and `buf.seak` in `gerar_stats_card` (see Findings). `Listeners.NoCardAsWritten` states the outcome: no card is ever stored.
- Listeners.OnVoiceStateUpdate: join and exit cards follow the corrected `Listeners.CallCards.EnsureCard`. As written no card exists, and the exit card's own one-argument `fetch_avatar_bytes` call (cogs/listeners.py:116) raises too, so no exit card is ever edited.
- Database.Store.ArchiveWeeklyTimes: the body of `archive_weekly_times` is not in the repository; the model keeps one entry per user with a nonzero total, as the design of the weekly history describes, and does not model the SQL that would do it.
- `Text.Lower`, `Text.Strip`, `Scheduler.ParseDay`: only ASCII letters are lower-cased, and only the common whitespace characters are stripped. Python's full Unicode case and space tables are not modelled.
- `Text.PyInt` does not accept the underscores Python's `int()` allows between digits.
- Text.IsDigit: only the ASCII digits 0-9 count. Python's `\d` and `int()` also accept other Unicode decimal digits (admin_commands.py:60 and 72, giveaway_commands.py:15), so such input is refused by the model where the bot would accept it.
- Text.SplitWs: splits on the common whitespace characters only, not on every character Python's `str.split()` treats as whitespace.
- Giveaways.ParseCreate: the `OverflowError` of a too-long duration or a too-late end is not caught by the command; it reaches `on_command_error`, which is modelled as the `Overflow` error result.
- The replies of `showreset`, `list_goals`, `list_prohibited` and `help` are formatting only. The listing of 15 dates by `historico` without an argument is left out too.
- Giveaways.GiveawayStore.EndChecker: every finished giveaway is ended and removed in one pass. In the source an uncaught error from the edit or reply of one giveaway (cogs/giveaway_commands.py:170-173) aborts the rest of the loop, and the later finished giveaways wait for the next pass; that Discord fault is not modelled.
- `Giveaways.Draw`: `random.sample` is modelled as any choice of the right number of distinct entrants.
- The giveaway table functions are not in the repository. `get_finished_giveaways` is modelled as the giveaways whose end is at or before now. `add_giveaway_participant` has set semantics. `remove_giveaway` removes the giveaway from the active table, and its participants rows are not modelled.
- The `roles_csv` column of a giveaway is written but never read back, so it is not modelled. `GiveawayView`'s required roles are a parameter of `Giveaways.GiveawayStore.EntryButton`.
- `Views.PageLabelReads`: stated only for non-negative page numbers and counts, the only ones the view produces.
- `Scheduler.ParseDay`: proved per input class (the abbreviations, the digits 0..6, "7", "sábado") rather than as a single formula. Its full definition is `DayOf(Lower(Strip(s)))`, with the digits checked first.

## Findings

| source | as written | input that shows it | evidently intended | confidence | as-written member | corrected member |
|---|---|---|---|---|---|---|
| bot-tempo-discord-main/utils/helpers.py:49-52 | `s = int(s)` reads the local `s` before assignment; the bare `except` sets `s = 0`, so every call returns "0 minutos" | `human_hours_minutes(3600)` gives "0 minutos" instead of "1 hora" | `s = int(seconds)` | not executed | Helpers.HumanHoursMinutesAsWrittenIgnoresInput | Helpers.HumanHoursMinutesRoundTrip |
| bot-tempo-discord-main/core/scheduler.py:124-131 | the target is `_next_weekly_dt(now_utc, …)`, which is strictly after `now_utc`, so `now_utc >= target_utc` never holds and the weekly reset never fires | any now, any configuration, any last reset | compare against the latest scheduled instant at or before now, and fire when no reset was recorded since it | not executed | Scheduler.ShouldFireAsWrittenNever | Scheduler.PrevWeeklyDtIsLatest |
| bot-tempo-discord-main/cogs/listeners.py:45-52 | `datetime` is not imported, so line 48 raises `NameError`; the bare `except` leaves the exit duration at 0 | a one-hour call: the duration computed for the exit message is 0 seconds instead of 3600 | the seconds between the session start and now | not executed | Listeners.ExitDurationAsWrittenIsZero | Listeners.ExitDurationIsCredited |
| bot-tempo-discord-main/utils/image_generator.py:133-136 | `buf.seak(0)` raises `AttributeError`, so `gerar_stats_card` never returns: `tempo` (general_commands.py:41-53), which fetches the avatar correctly, always replies "Erro ao gerar o cartão de tempo.". In the listener the one-argument `fetch_avatar_bytes` call raises first (see "Broken wiring"), and listeners.py:105 catches either error before the card is stored | `!tempo` for any member: the error reply instead of the card; in the listener, a member joins with a call-log channel configured: no card is stored, and the leave edits nothing | `buf.seek(0)` | not executed | Listeners.NoCardAsWritten | Listeners.CallCards.EnsureCard |
