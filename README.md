# Auto-moderation engine of the bot in `database.py`

This project models the core of a chat bot, `database.py`. The core is the
auto-moderation engine (`AdvancedAutoMod`). It runs up to eight checks over
each message, in a fixed order:

- spam in a time window;
- mass mentions, and `@everyone`/`@here` without permission;
- capital letters;
- forbidden links;
- banned words;
- repeated texts;
- emoji spam;
- invites.

The engine collects the records these checks produce. It raises a per-user
warning counter and appends to a bounded violation log. It then emits the
enforcement steps of the warning ladder: delete, warn, mute from the third
warning, kick from the fifth.

Around the engine the project also models:

- the in-memory semantics of the bot's two-level store (`DataStorage`);
- the moderator commands that edit lists in that store: manual warnings and
  the banned-word list;
- the mute-duration parser, and the amount check of the purge command;
- the deterministic rules of a few games: the slot payout, the guess
  reward, the divorce split, the tic-tac-toe win test, and the millionaire
  prize.

Modules:

- `Common`: optional values, results, and the Python string operations the
  bot uses. These are `sub in s`, `lower()`, `isupper()`, `strip()`,
  `isdigit`/`isalpha` filtering, `int()` and slicing.
- `Storage`: `DataStorage` as a class over a map of maps.
- `AutoModRules`: the pure part of the engine. It holds the message and
  settings data and the eight evaluators. It also holds the severity
  weighting, the escalation ladder and the bounded log.
- `AutoMod`: class `AdvancedAutoMod`, with its history, counters and log
  as fields. Its methods change those fields in place.
- `ModCommands`: the warning and banned-word commands, the duration parser
  and the purge check.
- `Games`: the game rules.

Each method is proved against a function on the old state or the inputs.
The properties the bot promises are lemmas about those functions.

## Model

| member | source | states |
|---|---|---|
| Storage.EnsureKey | database.py:79-82 | creating a missing data key adds exactly that key, with an empty group map, and keeps every other key's contents |
| Storage.ReadAfterWrite | database.py:79-90 | reading a group's value right after storing it returns the stored value |
| Storage.WriteIsolated | database.py:85-90 | a store changes one (key, group) cell only; every other cell reads as before |
| Storage.EnsureKeyInvisible | database.py:79-83 | the key creation done by a read never changes what any later read returns |
| Storage.StoredAfterEnsureKey | database.py:79-90 | a read then a write is the same store as the write alone |
| Storage.DataStorage.GetGuildData | database.py:79-83 | returns the group's value, or the empty value when the key or the group is missing; the only state change is the creation of the key |
| Storage.DataStorage.SetGuildData | database.py:85-90 | the store afterwards is the old store with the one cell written |
| AutoModRules.Prune | database.py:199-201 | each kept entry is an entry of the history and strictly younger than the window, and no more entries are kept than the history has; the order is kept by PruneConcat |
| AutoModRules.SpamWindow | database.py:191-201 | the history after the spam check holds at most one entry more than before, and each of its entries is an earlier entry or the message just checked |
| AutoModRules.PruneConcat | database.py:199-201 | pruning keeps order: it works piecewise over a concatenation |
| AutoModRules.PruneKeepsRecent | database.py:199-201 | no entry younger than the window is lost |
| AutoModRules.PruneAllRecent | database.py:199-201 | a history whose entries are all young is kept whole |
| AutoModRules.PruneNoneRecent | database.py:199-201 | a history whose entries are all old is emptied |
| AutoModRules.PruneIdempotent | database.py:199-201 | pruning twice at the same instant is pruning once |
| AutoModRules.SpamWindowShape | database.py:191-201 | after the spam check every entry satisfies `now - time < spam_time`; with a positive window the newest entry is the current message, after the pruned earlier history; with a window of 0 or less the current message itself is pruned |
| AutoModRules.SpamVerdict | database.py:203-209 | a spam record is returned exactly when the pruned window holds more than `spam_limit` entries, and it reports that count |
| AutoModRules.SpamAtLimitPlusOne | database.py:194-209 | `spam_limit` earlier messages inside the window plus the current one give exactly one spam record with count `spam_limit + 1` |
| AutoModRules.SpamQuietOutsideWindow | database.py:194-209 | with a positive window and a spam limit of at least 1, earlier messages that all lie outside the window never give a spam record |
| AutoModRules.MentionViolation | database.py:213-238 | at most one record; mass_mention exactly when user plus role mentions exceed the limit; everyone_mention exactly when the limit is not exceeded, the text contains "@everyone" or "@here", and the author lacks the permission |
| AutoModRules.EveryoneMentionInText | database.py:229-236 | "@everyone" or "@here" anywhere in the text, within the mention limit and from an author without the permission, gives everyone_mention |
| AutoModRules.CapsViolation | database.py:240-262 | texts shorter than 10 characters are never flagged; a text is flagged exactly when capitals divided by length is strictly above the threshold, compared by cross-multiplication |
| AutoModRules.CapsAtThresholdQuiet | database.py:254 | a ratio equal to the threshold is not flagged |
| AutoModRules.CapsFullThresholdQuiet | database.py:247-254 | a threshold of 100% or more is never exceeded |
| AutoModRules.CapsLowerCaseQuiet | database.py:247-254 | lower-case text is never flagged when the threshold is not negative |
| AutoModRules.CapsDefaultThreshold | database.py:252-254 | with the default 70%, 15 capitals in 20 characters are flagged and 14 are not |
| AutoModRules.FirstForbiddenHost | database.py:277-293 | a reported host is one of the message's URL hosts, and no allowed entry occurs in it |
| AutoModRules.FirstForbiddenHostIsFirst | database.py:277-293 | nothing is reported exactly when every extracted host passes; otherwise the first failing host is reported and every earlier URL passed |
| AutoModRules.LinkViolation | database.py:264-295 | nothing is reported exactly when every extracted host passes the group's allowed domains or the built-in safe domains; otherwise the link record names the first URL host that passes neither, and every earlier URL passed |
| AutoModRules.SafeDomainSubstringPasses | database.py:283-288 | because the allow rule is a substring test, any host that merely contains a safe domain passes |
| AutoModRules.HostAllowedAt | database.py:283-288 | the allow rule read positionally: a host passes exactly when some allowed entry (the group's domains, then the safe list) starts at some position of the host |
| AutoModRules.FirstBannedWord | database.py:304-312 | the reported word is the first listed word that occurs in the text: it is listed at some position, it occurs, and no word listed before it occurs; nothing is reported exactly when no listed word occurs |
| AutoModRules.BadWordViolation | database.py:297-315 | a bad_word record names the first listed word, in list order, that occurs in the lower-cased text; none exactly when no listed word occurs in it |
| AutoModRules.BadWordCaseInsensitive | database.py:304-307 | lower-casing the message first never changes the verdict |
| AutoModRules.BadWordAnyCase | database.py:304-308 | a word written in any letter case anywhere in a message is caught by its lower-cased entry |
| AutoModRules.LastFive | database.py:330 | the slice holds five entries, or the whole history when it is shorter |
| AutoModRules.LastFiveSuffix | database.py:330 | the slice is exactly the last entries of the history, in their order, and the history is what came before them followed by the slice |
| AutoModRules.RepeatViolation | database.py:317-343 | the result is either no record or a repeat record |
| AutoModRules.ThreeSetSingleton | database.py:336 | the set of three texts has one element exactly when the three texts are equal |
| AutoModRules.RepeatIff | database.py:330-341 | a repeat is flagged exactly when the history holds at least three entries and the last three stripped contents are equal; the five-entry slice does not matter |
| AutoModRules.RepeatUnfold | database.py:330-336 | on a history of three or more, the verdict depends only on the last three entries of the whole history |
| AutoModRules.RepeatThirdTime | database.py:333-336 | the same text sent three times in a row, padded with white space or not, is a repeat on the third |
| AutoModRules.RepeatNotTwice | database.py:333-341 | two copies after a different text are not a repeat |
| AutoModRules.EmojiViolation | database.py:345-360 | an emoji_spam record exactly when more than 5 emoji are found, carrying the count |
| AutoModRules.InviteViolation | database.py:362-378 | an invite record exactly when an invite is present and the author cannot manage the group |
| AutoModRules.Part | database.py:119-170 | a check contributes its record exactly when it is switched on and fires, and at most one record |
| AutoModRules.Collected | database.py:117-170 | at most eight records are collected, and none exactly when no switched-on check fires, so `check_message` hands records on exactly when some switched-on check fires |
| AutoModRules.ChecksProduceTheirKinds | database.py:126-168 | every record a switched-on check contributes passes CheckEnabled, the test that its kind belongs to a switched-on check |
| AutoModRules.CollectedFromEnabledChecks | database.py:117-168 | each collected record comes from its own switched-on check |
| AutoModRules.CollectedComplete | database.py:117-168 | every switched-on check that fires has its record in the collected list |
| AutoModRules.CollectedRepeatSound | database.py:150-154 | a repeat record is collected exactly when the repeat check is on and fires |
| AutoModRules.Weight | database.py:437-449 | a tag's weight is between 1 and 4, and 1 for tags outside the table |
| AutoModRules.EveryTagWeighted | database.py:437-447 | every record type the evaluators produce has a table entry, so the default weight is for foreign tags only |
| AutoModRules.TotalSeverity | database.py:449 | the total lies between the number of records and four times that number |
| AutoModRules.TotalSeverityConcat | database.py:449 | the total of a concatenation is the sum of the totals |
| AutoModRules.Severity | database.py:449-455 | high exactly when the total is at least 5, medium exactly when it is 3 or 4, low exactly when it is below 3 |
| AutoModRules.SeverityMonotone | database.py:449-455 | more records never lower the severity |
| AutoModRules.SeverityHeavyPair | database.py:437-455 | an invite or an everyone_mention together with any other record is high, in either order |
| AutoModRules.EscalationActions | database.py:411-430 | delete exactly when its switch is on; warn with the count exactly when its switch is on; a 30-minute mute exactly when the count is at least 3 and mute is on; a kick exactly when the count is at least 5 and kick is on; nothing else |
| AutoModRules.EscalationCumulative | database.py:419-430 | a higher count keeps every punishment of a lower one, and a kick comes with a mute whenever muting is on |
| AutoModRules.EscalationFirstTier | database.py:419-430 | counts below 3 only delete and warn |
| AutoModRules.Tags | database.py:525 | the logged tags are the records' type tags, one per record, in order |
| AutoModRules.MakeLogEntry | database.py:521-528 | the entry records the author, the time, the tags and the post-increment count, and the first 200 characters of the text, or the whole text when it is shorter |
| AutoModRules.LastN | database.py:534 | a short list is kept whole; a long one is cut to its last n elements |
| AutoModRules.AppendBounded | database.py:530-534 | below 100 entries the new entry is appended; at 100 or more the log is the newest 99 plus the new entry, 100 in all |
| AutoModRules.AppendAllKeepsNewest | database.py:530-534 | however many entries are logged one by one, the log is the newest 100 of all of them, in their original order |
| AutoModRules.AppendHundredFifty | database.py:530-534 | 150 entries logged into an empty log leave exactly the newest 100 |
| AutoMod.UserValue | database.py:185-191 | a user's value is the stored one, or the default when the group or the user has no entry |
| AutoMod.WithUserValueIsolated | database.py:398-403 | writing one user's value creates only that group and user entry and leaves every other (group, user) value unchanged |
| AutoMod.Bumped | database.py:398-403 | raising a count creates the group and user entries when missing and leaves every other group's counters as they were |
| AutoMod.BumpedByOne | database.py:398-404 | a violation raises the user's count by exactly 1 and leaves every other count unchanged |
| AutoMod.ResetCount | database.py:547-549 | a reset creates no group or user entry |
| AutoMod.ResetCountZero | database.py:543-549 | after a reset the user's count is 0 and nobody else's count changes |
| AutoMod.ResetRestartsLadder | database.py:398-430 | after a reset the next violation counts as 1 and brings neither mute nor kick |
| AutoMod.ViolationsReachTiers | database.py:398-430 | from a clean count, three violations reach the mute tier without a kick, and five reach the kick tier |
| AutoMod.HistoryAfter | database.py:119-123 | only the spam check writes the history: with it off the history is unchanged; with it on no other user's history changes and the author's window holds only entries younger than `spam_time` |
| AutoMod.WindowRepeats | database.py:194-201 | two earlier copies inside the window, followed by a third copy, leave a window whose last three texts are equal |
| AutoMod.ThirdCopyIsRepeat | database.py:120-154 | the repeat check reads the history the spam check left: two earlier copies inside the spam window make the third copy a repeat, whatever the spam check itself decides |
| AutoMod.NoSpamCheckNoRepeat | database.py:120-154 | with the spam check off the history is never written, so a user without history is never flagged for repeating |
| AutoMod.Verdicts | database.py:117-168 | one message gives at most eight records, each from a switched-on check |
| AutoMod.KeepRecent | database.py:199-201 | the loop keeps exactly the entries `Prune` keeps, in order |
| AutoMod.Escalate | database.py:411-430 | the emitted steps are exactly the escalation actions of the count |
| AutoMod.AdvancedAutoMod.constructor | database.py:95-99 | the engine starts with no history, no counters and no log |
| AutoMod.AdvancedAutoMod.CheckSpam | database.py:174-211 | the user's history becomes the pruned window with the message appended; for no other user does it change; the verdict is the spam verdict of that window; counters and log are unchanged |
| AutoMod.AdvancedAutoMod.CheckRepeat | database.py:317-343 | reads the history and changes nothing; a user without history is not flagged; otherwise the verdict is the repeat rule over the stored history |
| AutoMod.AdvancedAutoMod.LogViolation | database.py:512-534 | the group's log becomes the bounded append of the new entry; no other group's log changes |
| AutoMod.AdvancedAutoMod.HandleViolation | database.py:380-433 | the user's count rises by one; the log gains an entry with the new count; the steps are the escalation actions of the new count; the history is unchanged |
| AutoMod.AdvancedAutoMod.ResetWarnings | database.py:543-549 | an existing count becomes 0 and nothing else changes |
| AutoMod.AdvancedAutoMod.CheckMessage | database.py:101-172 | bots, admins and disabled groups: returns false and changes nothing; otherwise the history is what the spam check leaves, the result is true exactly when some switched-on check fires, and when it does the count, log and actions are those of HandleViolation over the collected records |
| ModCommands.Warned | database.py:1221-1229 | adding a warning keeps every earlier warning, appends one with id `len + 1`, and keeps ids 1, 2, 3, ... sequential |
| ModCommands.UnwarnSequential | database.py:1317 | dropping the newest warning keeps the ids sequential |
| ModCommands.FindFrom | database.py:1346-1348 | the found position holds the id and no earlier position does; none when no position holds it |
| ModCommands.Renumbered | database.py:1352-1353 | from the given position on, every id is rewritten to its position plus one; earlier warnings are untouched |
| ModCommands.RemovedById | database.py:1339-1373 | NoWarnings exactly for an empty list; NotFound exactly when no warning has the id; otherwise one warning fewer remains and the removed warning has the id |
| ModCommands.RemoveByIdSequential | database.py:1339-1373 | with sequential ids, removal succeeds exactly for ids 1 to the list length; it removes that warning, keeps the others in order with their contents and leaves the ids sequential; an empty list is NoWarnings |
| ModCommands.RemoveById | database.py:1346-1373 | the search and renumbering loops compute exactly the removal by id |
| ModCommands.Warn | database.py:1208-1236 | no self-warning; otherwise the target's list gains a warning with id `len + 1`, it is stored back, and the timeout is issued from the third warning on |
| ModCommands.Unwarn | database.py:1305-1319 | an empty list is an error and nothing is stored; otherwise the newest warning is dropped and the shorter list stored |
| ModCommands.RemoveWarn | database.py:1334-1373 | an empty list or an unknown id is an error and nothing is stored; otherwise the renumbered remainder is stored and the removed warning returned |
| ModCommands.RemoveFirst | database.py:1836 | one copy of a listed word is removed, one element fewer by multiset; the list of an unlisted word is unchanged |
| ModCommands.RemoveFirstAt | database.py:1836 | the copy removed is the first one, and the words before and after it keep their order |
| ModCommands.AddedWord | database.py:1802-1815 | refused exactly when the lower-cased word is already listed; otherwise the lower-cased word is appended and other groups' lists do not change |
| ModCommands.RemovedWord | database.py:1827-1837 | refused exactly when the lower-cased word is not listed; otherwise its first copy is removed and other groups' lists do not change |
| ModCommands.AddKeepsWellFormed | database.py:1810-1815 | adding keeps the list lower case and free of duplicates |
| ModCommands.AddedWordIsCaught | database.py:1810-1815 | after adding a word, a message containing it in any letter case is caught by the bad-word check |
| ModCommands.AddThenRemove | database.py:1810-1837 | removing a word just added restores the group's list |
| ModCommands.RemoveDropsWord | database.py:1832-1836 | on a list without duplicates, the removed word is no longer listed |
| ModCommands.RemoveKeepsWellFormed | database.py:1832-1836 | removing keeps the list lower case and free of duplicates |
| ModCommands.ParseDuration | database.py:1467-1486 | refused as malformed exactly when there are no digits or the lower-cased letters name no unit; otherwise the digits' value times the unit, and refused as too long above 28 days |
| ModCommands.ParseDurationRoundTrip | database.py:1475-1484 | a number written out, followed by a unit word in any letter case, reads back as the number times the unit, or as too long beyond 28 days |
| ModCommands.ParseDurationRejects | database.py:1475-1480 | every argument without digits, and every argument without letters (such as a bare number), is refused as malformed |
| ModCommands.PurgeLimit | database.py:1549-1554 | amounts 1 to 100 are accepted and purge the amount plus the command message; others are refused |
| Games.MultiplierSwapFirst | database.py:2173-2187 | swapping the first two reels keeps the payout factor |
| Games.MultiplierSwapLast | database.py:2173-2187 | swapping the last two reels keeps the payout factor, so any order of the reels gives the same factor |
| Games.Multiplier | database.py:2173-2187 | the factor is one of 0, 3, 5, 10, 30, 50 and 100, and 10 or more exactly for three equal symbols |
| Games.SlotsLoseIff | database.py:2182-2187 | a spin pays nothing exactly when the three symbols differ and are not all fruit |
| Games.Winnings | database.py:2189 | for a positive bet the balance change is positive exactly when the factor exceeds 1, and is the lost bet exactly when the factor is 0 |
| Games.Spin | database.py:2153-2191 | a bet below 10 or above the balance is refused; otherwise the balance stays non-negative, grows exactly when the factor exceeds 1, and drops by the bet exactly when the factor is 0 |
| Games.JackpotPays | database.py:2173-2189 | three sevens add 99 times the bet |
| Games.GuessReward | database.py:2122 | the reward for a guess on attempts 1 to 6 is between 100 and 500 |
| Games.GuessRewardDecreasing | database.py:2122 | an earlier guess is always worth more |
| Games.DivorceSplit | database.py:2360-2365 | the split creates balances for both partners when missing and no other entry |
| Games.DivorceSplitHalves | database.py:2360-2365 | each partner gains `pool // 2`, nobody else changes, and for an odd pool one credit is not paid out |
| Games.CheckWin | database.py:3319-3324 | the loop over rows and columns, then the diagonals, finds a win exactly when some line has three equal cells |
| Games.SameMeansMarked | database.py:3287-3324 | on a board whose free cells show their own numbers, three equal cells are three crosses or three noughts |
| Games.WinIffHeldLine | database.py:3287-3324 | the equality test finds a winner exactly when one player holds a whole row, column or diagonal |
| Games.StartBoardNoWin | database.py:3287 | the starting board has no winner |
| Games.Place | database.py:3310-3316 | a move marks its free square and nothing else; a move on an occupied square leaves the board unchanged |
| Games.Guaranteed | database.py:3423-3428 | the guaranteed sum is 300 from question 4, 200 from question 2, and 0 before |
| Games.Millionaire | database.py:3401-3459 | the game loop computes exactly the outcome of the replies |
| Games.Outcome | database.py:3401-3459 | from a non-negative amount won, no game pays less than nothing or more than what is won so far plus the remaining prizes |
| Games.MillionaireRange | database.py:3368-3459 | every game pays from 0 to 2100, and five correct answers pay 2100 |
| Games.QuitAddsGuarantee | database.py:3422-3447 | after three correct answers, quitting at question four pays 600 + 300, while a wrong answer there pays only 300 |

## Left out

- Discord I/O is not modelled: deleting messages, sending warnings and embeds, timeouts, kicks, DMs and channel lookups. Enforcement is the list of `Action` tags that HandleViolation and CheckMessage return. The manual-warning timeout is the `timeout` flag of `WarnOutcome`.
- The one-hour `asyncio.sleep` before the counter reset (database.py:545) is not modelled. The reset is the explicit operation ResetWarnings, which also stands for the admin reset command (database.py:1750-1752). Scheduling, concurrency and the stacking of several pending resets are out of scope. So are the 10-second auto-delete of the warning message and the game time-outs; a game time-out is a `TimedOut` reply.
- JSON persistence (`load_data`, `save_data`, the temporary-file rename) is not modelled; `DataStorage` is only the in-memory map.
- The store is heterogeneous in the source. Here one `DataStorage<V>` holds one value type, and the empty value a missing group reads as is a parameter.
- The engine reads its `auto_mod` settings and the `bad_words` document from the store. Here CheckMessage takes them as parameters, with every missing key resolved to its default (DefaultSettings). The key creation these reads cause in the store is not modelled.
- The violation log lives in the store under `mod_logs` → `violations` in the source. Here it is the field `modLogs` of AdvancedAutoMod, one list per group.
- The URL, host, emoji and invite regular expressions are abstracted. A message carries the host found for each URL (None when the host pattern fails), the emoji count and an invite flag. The substring allow rule for domains is modelled as written.
- Floating point is replaced: the caps threshold is the exact fraction capsNum/capsDen, and time is an integer number of seconds.
- Character classes are narrower than Python's. Upper case, lower case and `lower()` cover exactly A-Z, a-z, the Russian А-Я, а-я, and Ё, ё. `isalpha` is the union of those two sets. `isdigit` covers 0-9 only. Letters such as Є, І, Ў, α or é count as neither upper case nor letters here. `strip` removes exactly the characters Python's `str.isspace()` accepts.
- ParseDuration: a letter outside those ranges is dropped from the unit instead of kept, so the model accepts arguments the bot refuses. For example, "10αm" reads as 600 seconds here, while the bot sees the unit "αm" and refuses it. A digit outside 0-9 is dropped too.
- LastFive: its contract gives the length of the slice only. That the slice is the last entries of the history is the lemma LastFiveSuffix, kept apart so the slice's contents do not enter every proof that reads the repeat check.
- RemoveFirst: its contract states the removal by multiset only. That the first copy goes and the order is kept is the lemma RemoveFirstAt.
- The default arguments of the commands are not modelled: the purge amount of 10 (database.py:1547), the slots bet of 10 (database.py:2153), the warning reason "Не указана" (database.py:1208) and the one-hour length of the manual-warning timeout (database.py:1232). WarnOutcome only says whether that timeout is issued.
- CheckMessage takes one `now` for both reads of `time.time()`: the spam history entry (database.py:190) and the log timestamp (database.py:524). The source reads the clock twice, a moment apart.
- Random draws are parameters: the three slot symbols and the guess attempt. The players' replies in the millionaire and tic-tac-toe games are parameters too.
- The games' economy updates are not modelled (the balance write of slots, the guess, tic-tac-toe and millionaire rewards), except the divorce split. The marriage lookup and deletion around the split are not modelled either.
- The guess, tic-tac-toe and millionaire chat loops are modelled only through the rules they apply. The exceptions are the millionaire question loop (Millionaire) and the win test (CheckWin).
- The gradient panel, the two `on_message` handlers, the `mention_tracker` field (never used), the settings command (`automod_command`), the ban and mute stores and all other commands of the file are not part of this model.
- Severity: computed by `handle_violation` but never used there. It is modelled as the function Severity and its lemmas, and HandleViolation does not compute it.
- AddedWord and RemovedWord work on the group's `bad_words` document as a value. The read and write through the store around them are the same pattern Warn shows; they are not repeated.
- Spin returns the new balance; storing it is not modelled.

## Behaviour of the code worth noting

- check_mentions returns at most one record. When the mention limit is exceeded it returns mass_mention, and the `@everyone`/`@here` test is not reached.
- check_repeat reads the history the spam check pruned and has no window of its own. With the spam check off that history is never written, so a new user is never flagged for repeating (NoSpamCheckNoRepeat).
- handle_violation computes the severity but no enforcement step depends on it.
- Quitting the millionaire game adds the guaranteed sum to what was already won; a wrong answer replaces the winnings by the guaranteed sum (QuitAddsGuarantee).
