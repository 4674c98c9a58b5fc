# CTF-Polije core, modelled in Dafny

CTF-Polije is a capture-the-flag platform. Players solve challenges, submit
flags and climb a scoreboard. Administrators create and edit challenges,
switch them on and off, and review solves and audit logs. A Discord bot
polls the platform for "first blood" notifications (the first solve of each
challenge). It keeps a bounded ledger of them, announces the new ones in a
channel and maintains a table message of the latest solves.

This project models the deterministic rules of the platform and proves
properties about them. Network calls, storage, clocks, hashing, date and JSON
parsing become parameters or input values. Each source file has its own
module:

- `bot_feed.dfy` (`BotFeed`): the bot's fetch normaliser and the ledger
  reconciliation of each poll cycle (merge by id, sort by time, keep the last
  100, report what is new), with the lemmas that a repeated cycle reports
  nothing. Source: `discord-bot/bot.py`.
- `bot_relay.dfy` (`BotRelay`): the relative-time text, the table message and
  the bounded queue of announcement messages, over a channel that may fail.
  Source: `discord-bot/bot.py`.
- `legacy_bot.dfy` (`LegacyBot`) and `elapsed.dfy` (`Elapsed`): the older bot,
  with its seen-id set and its own id scheme, and the bucket arithmetic both
  bots share. Sources: `discord-bot/bot_old.py` and `discord-bot/bot.py`.
- `utils.dfy` (`Utils`): username validation, counted in UTF-16 code units,
  and relative dates. Source: `src/lib/utils.ts`.
- `auth.dfy` (`Auth`), `register_page.dfy` (`RegisterPage`) and
  `register_route.dfy` (`RegisterRoute`): the guard chains of sign-up,
  sign-in, the register page and the registration API.
- `chat_text.dfy` (`ChatText`), `chat_widget.dfy` (`ChatWidget`) and
  `livechat.dfy` (`LiveChat`): the live chat. This covers HTML escaping and
  its inverse, sanitising, truncation, mention suggestions, reaction
  aggregation and toggling, the send gate, the unread badge, upload checks
  and message payloads.
- `challenge_list.dfy` (`ChallengeList`): the challenge page's hint
  normalisation, filter, category order, grouping and flag submission.
- `admin_challenges.dfy` (`AdminChallenges`) and `challenge_form.dfy`
  (`ChallengeForm`): the admin page's edit form, save payload, filter, sort
  comparator, list helpers and delete gate, and the form's numeric fields.
- `filter_bar.dfy` (`FilterBar`) and `difficulty.dfy` (`Difficulty`): filter
  options, difficulty normalisation, colours and ribbons.
- `detail_dialog.dfy` (`DetailDialog`): the "copy wget" command line. It is
  proved to read back as the intended words under the quoting rules of
  section 2.2 of the POSIX Shell Command Language. The module also covers
  labels, the file/link split and the submit gate.
- `challenge_store.dfy` (`ChallengeStore`): rank lookup, the challenge view
  mapping, hint serialisation, progress curves and the leaderboard summary.
  Source: `src/lib/challenges.ts`.
- `scoreboard.dfy` (`Scoreboard`) and `scoreboard_all.dfy` (`ScoreboardAll`):
  the top-100 board with the top-10 histories, and the full ranking.
- `activity_stats.dfy` (`ActivityStats`): the paginated fetch and the
  per-day aggregation of solves and active users.
- `notifications.dfy` (`Notifications`), `audit_log.dfy` (`AuditLog`),
  `admin_solvers.dfy` (`AdminSolvers`) and `user_profile.dfy`
  (`UserProfile`): unread tracking, the audit-log filter, the solves admin
  page and the profile badges.
- `solve_script.dfy` (`SolveScript`): the line parser of `soal/solve.py`.
- `base.dfy`, `strings.dfy`, `sequences.dfy` and `sorting.dfy`: shared
  datatypes (`Option`, `Result`, a JSON value), ASCII string helpers,
  sequence helpers and an insertion sort.

The ledger merge at `discord-bot/bot.py:284` is a dict
comprehension. A duplicate id therefore keeps its first position and takes
the fetched (later) value. It does not keep the stored copy.
`BotFeed.MergeContents` states this.

Message texts keep the characters their source file holds.
`discord-bot/bot.py`, `discord-bot/bot_old.py` and `src/lib/utils.ts` hold
UTF-8 punctuation and emoji that were read back as Windows-1252. So the
bullet is stored as the three characters "â€¢" and the dash as "â€”", and
the program emits those characters as they are. The other modelled files
hold the intended characters.

## Model

| member | source | states |
|---|---|---|
| Base.TruthinessDiffers | discord-bot/bot_old.py:111 | Python's and JavaScript's truthiness disagree exactly on an empty list and an empty object |
| BotFeed.OrElse | discord-bot/bot.py:146-148 | Python's `v or fallback`: the result is the fallback, or the present value, which is then non-empty |
| BotFeed.FetchItems | discord-bot/bot.py:127-151 | the kept solves are exactly the conversions of the first-blood items with a time the parser accepts; no more solves than items |
| BotFeed.Fetch | discord-bot/bot.py:117-154 | a failed request gives no solves; every solve has non-empty user, challenge, category and a parseable time; kept solves are exactly the converted accepted items |
| BotFeed.MarkerIsIdWhenNamed | discord-bot/bot.py:142-143 | with a non-empty user name and title, the hash `post_latest` computes (line 227-228) equals the ledger id |
| BotFeed.MarkerKeyDiffersWhenUnnamed | discord-bot/bot.py:142-146 | without a user name the hashed texts differ ("None"/"" against "<unknown>"), so an announced solve is not recognised by id |
| BotFeed.LastWith | discord-bot/bot.py:284 | the last solve with an id exists exactly when the id occurs, and it is a member with that id |
| BotFeed.LastWithAppend | discord-bot/bot.py:284 | the last solve with an id in `a + b` comes from `b` when `b` has the id, otherwise from `a` |
| BotFeed.LastWithUnique | discord-bot/bot.py:284 | in a list of distinct ids, the last solve with x's id is x |
| BotFeed.Upsert | discord-bot/bot.py:284 | the inserted solve is held afterwards and the list grows by at most one |
| BotFeed.UpsertIds | discord-bot/bot.py:284 | inserting into the dict keeps the id order and appends an id only when it is new |
| BotFeed.UpsertMembers | discord-bot/bot.py:284 | after inserting s, the entries are s and the old entries with another id |
| BotFeed.Merge | discord-bot/bot.py:284 | the dict comprehension yields distinct ids |
| BotFeed.MergeContents | discord-bot/bot.py:284 | the merge has exactly the input's ids, and each entry is the last input solve with its id (a fetched copy replaces the stored one) |
| BotFeed.ByTime | discord-bot/bot.py:285 | the sort key orders by parsed time; the order is total and transitive |
| BotFeed.Reconcile | discord-bot/bot.py:279-288 | with one ISO parser standing for both of the bot's parsers, a cycle fails exactly when that parser rejects some merged time; otherwise the ledger and the reported solves are computed (the mixed-offset `TypeError` of the sort is not modelled, see "## Left out") |
| BotFeed.IdSet | discord-bot/bot.py:282 | the id set holds exactly the ids of the solves |
| BotFeed.DistinctIds | discord-bot/bot.py:284 | distinct ids is the same as distinct solves with one value per id |
| BotFeed.ChronologicalSort | discord-bot/bot.py:285 | the sorted list is in ascending time between every pair of positions |
| BotFeed.SortedByTime | discord-bot/bot.py:285 | sorting keeps the members and distinct ids and orders by time |
| BotFeed.DroppedBeforeKept | discord-bot/bot.py:285 | a solve cut by `[-100:]` is no later than any kept solve |
| BotFeed.LedgerIsLatest | discord-bot/bot.py:285 | the ledger is the last 100 of a time-ordered permutation of the merge |
| BotFeed.LedgerShape | discord-bot/bot.py:284-286 | the ledger has min(merged, 100) solves, distinct ids, ascending time, each the latest copy of its id, and nothing cut is later than anything kept |
| BotFeed.ReportedSolves | discord-bot/bot.py:288 | a solve is reported exactly when it is in the ledger with an id the stored file lacked; reported solves are fetched ones, in ledger order |
| BotFeed.SecondMergeWithinFirst | discord-bot/bot.py:284 | merging the new ledger with the same fetch adds nothing new |
| BotFeed.LedgerInSecondMerge | discord-bot/bot.py:284 | every ledger solve survives the second merge unchanged |
| BotFeed.CutMeansFull | discord-bot/bot.py:285 | a merged solve is cut only when the ledger is full (100 solves) |
| BotFeed.KeptLaterThanCut | discord-bot/bot.py:285 | with distinct times, every kept solve is strictly later than a cut one |
| BotFeed.CutAgain | discord-bot/bot.py:285 | a solve cut in one cycle is cut again when the same fetch repeats |
| BotFeed.SecondLedgerWithinFirst | discord-bot/bot.py:279-288 | repeating a cycle with the same fetch keeps only solves of the first ledger |
| BotFeed.SecondCycleReportsNothing | discord-bot/bot.py:279-292 | repeating a cycle with the same fetch succeeds and reports nothing new (no duplicate announcement) |
| BotRelay.WholeSeconds | discord-bot/bot.py:93 | `int(total_seconds())` truncates toward zero for both signs; spans under one second either way give 0 |
| BotRelay.RelativeDate | discord-bot/bot.py:85-111 | unparsable text is returned unchanged; otherwise the elapsed whole seconds choose seconds, minutes, hours, days (with the time of day) or the full date |
| BotRelay.FutureReadsAsSeconds | discord-bot/bot.py:93-96 | a time ahead of the clock reads as (negative or zero) seconds; less than a second ahead reads "0 seconds ago" |
| BotRelay.TableLinesShape | discord-bot/bot.py:180-183 | the table holds one line per solve of the latest ten, oldest first |
| BotRelay.TableText | discord-bot/bot.py:180-183 | an empty ledger gives an empty table |
| BotRelay.TableTextEnds | discord-bot/bot.py:180-183 | a non-empty table opens with the line of the oldest of the latest ten solves and closes with the line of the latest solve |
| BotRelay.MentionText | discord-bot/bot.py:248-250 | no mention when the role id is empty or "0", otherwise the resolved mention |
| BotRelay.AnnouncementShape | discord-bot/bot.py:254 | the announcement starts with the bold solver name and contains the solve's marker |
| BotRelay.Channel.Send | discord-bot/bot.py:203 | a send whose call fails changes nothing; otherwise it stores the content under the next id and advances the id; each call uses up one scripted outcome |
| BotRelay.Channel.Fetch | discord-bot/bot.py:200 | fetching yields the stored content, or nothing when this call fails or the message is gone |
| BotRelay.Channel.Edit | discord-bot/bot.py:200-201 | an edit succeeds exactly when the message exists and the call succeeds, and then replaces only that message |
| BotRelay.Channel.Delete | discord-bot/bot.py:220-221 | a delete succeeds exactly when the message exists and the call succeeds, and then removes only that message |
| BotRelay.Evicted | discord-bot/bot.py:217-223 | popping from the front while three or more ids remain leaves the last two ids, or all ids when fewer than three |
| BotRelay.Relay.constructor | discord-bot/bot.py:38-54 | a first start has an empty ledger, no table message and no tracked announcements |
| BotRelay.Relay.UpdateTable | discord-bot/bot.py:197-207 | on success the tracked table message holds the new text, reusing the old message or a freshly sent one; other messages are untouched; with no failing call it succeeds, and an existing table message is edited in place with nothing sent |
| BotRelay.Relay.EvictOldest | discord-bot/bot.py:215-223 | the tracked ids become `Evicted` of the old ones; only popped messages can disappear; with no failing call every popped message is deleted |
| BotRelay.Relay.AnnounceUnlessPosted | discord-bot/bot.py:226-241 | the whole new state follows the duplicate check `Search`: found means nothing is sent, otherwise one message is sent and tracked when the send succeeds; with no failing call a solve a tracked message shows is skipped; a solve no tracked message shows is sent and tracked whenever the call succeeds |
| BotRelay.SearchFindsOnlyShown | discord-bot/bot.py:232-239 | the duplicate check only reports a marker that some tracked message shows |
| BotRelay.SearchFindsShown | discord-bot/bot.py:232-239 | with no failing fetch, the duplicate check finds every marker a tracked message shows |
| BotRelay.SearchKeepsUp | discord-bot/bot.py:232-239 | the check uses up calls only from the front of the outcome script |
| BotRelay.FailedFetchMissesMarker | discord-bot/bot.py:233-239 | a fetch that fails is passed over by the bare `except`, so a tracked message showing the marker is missed and the solve is sent again |
| BotRelay.Relay.AnnounceAll | discord-bot/bot.py:226-257 | at most one message per solve; every new message announces one of the solves; on success every solve's marker is announced; tracked ids gain exactly the new messages; with no failing call it succeeds and announces only solves that no tracked message showed before |
| BotRelay.Relay.PostLatest | discord-bot/bot.py:209-260 | on success the last three reported solves are announced and at most three ids stay tracked; on failure the eviction and the sent ids stay in memory; with no failing call it succeeds and, for distinct tracked ids, announces only solves no message kept after eviction showed |
| BotRelay.Relay.Publish | discord-bot/bot.py:290-292 | on success the table shows the given text and the last three reported solves are announced; with no failing call it succeeds |
| BotRelay.Relay.Apply | discord-bot/bot.py:279-296 | a failed reconcile changes nothing; with nothing reported the channel and state stay as they were; the ledger becomes the new one; the state file is saved only when the cycle completes; with no failing call the cycle completes exactly when the reconcile succeeds |
| BotRelay.Relay.PollCycle | discord-bot/bot.py:277-298 | one polling cycle, with the guarantees of `Apply` stated in terms of the fetched response |
| Elapsed.MinutesToHours | discord-bot/bot.py:98-102 | the nested floor divisions by 60 and 60 equal one division by 3600 |
| Elapsed.HoursToDays | discord-bot/bot.py:102-106 | the nested floor divisions by 3600 and 24 equal one division by 86400 |
| Elapsed.Classify | discord-bot/bot.py:95-111 | each bucket (seconds, minutes, hours, days, older) holds exactly for its range of seconds, with the count being the floor quotient and in range |
| Elapsed.Phrase | discord-bot/bot.py:96 | the phrase ends in " ago" and is the singular "1 unit ago" exactly when the count is 1 |
| LegacyBot.PyStr | discord-bot/bot_old.py:111 | `str()` of a JSON string is the string itself, of a number its decimal text |
| LegacyBot.EventId | discord-bot/bot_old.py:111 | the id is `notif_id` when truthy by Python's rule, else `id` when truthy, else "notif:" and the time text |
| LegacyBot.EmptyListIdFallsBack | discord-bot/bot_old.py:111 | an empty list under `notif_id` is skipped in favour of `id`, although JavaScript would count it as true |
| LegacyBot.FetchItems | discord-bot/bot_old.py:90-119 | the kept events are exactly the conversions of first-blood items with a parseable time |
| LegacyBot.Fetch | discord-bot/bot_old.py:80-122 | a failed request gives no events; every event's time parses; events are exactly the converted accepted items |
| LegacyBot.FetchIgnoresHash | discord-bot/bot_old.py:109-111 | the SHA-256 digest is overwritten, so only the parser decides what is fetched |
| LegacyBot.LoadState | discord-bot/bot_old.py:35-42 | no file gives no seen ids; a list maps each element through `str()`; a string yields its characters; an object yields its keys; exactly null, a boolean or a number make the comprehension raise |
| LegacyBot.Unseen | discord-bot/bot_old.py:139 | the new events are exactly the fetched events whose id is not seen, in fetch order |
| LegacyBot.AnnouncementShape | discord-bot/bot_old.py:151-156 | the message starts with the bold solver name; it ends with the solve time when no role is set, otherwise with a dash and the resolved mention |
| LegacyBot.QueueShape | discord-bot/bot_old.py:139-140 | the queue is a time-ordered permutation of the unseen events |
| LegacyBot.Queue | discord-bot/bot_old.py:139-140 | with one ISO parser standing for both of the bot's parsers, the queue is a rearrangement of the unseen fetched events, and empty when the fetch failed (the mixed-offset `TypeError` of the sort is not modelled, see "## Left out") |
| LegacyBot.PostedShape | discord-bot/bot_old.py:142-158 | posting a queue adds one message per event under consecutive new ids and keeps the old messages |
| LegacyBot.IdsOfMembers | discord-bot/bot_old.py:159 | the seen-id set of a queue holds exactly the ids of its events |
| LegacyBot.Relay.constructor | discord-bot/bot_old.py:132-133 | at start the in-memory and saved seen sets are the loaded ids |
| LegacyBot.Relay.Announce | discord-bot/bot_old.py:142-162 | events are sent in order until one send fails; the channel gains exactly the sent messages; seen grows by their ids; the state is saved only when all were sent |
| LegacyBot.Relay.PollCycle | discord-bot/bot_old.py:136-166 | one cycle announces a prefix of the queue of unseen events, marks exactly those seen, and saves the state only on full success |
| LegacyBot.SecondPassFindsNothing | discord-bot/bot_old.py:139-159 | after a complete cycle, the same response yields no unseen events |
| LegacyBot.UnseenEmpty | discord-bot/bot_old.py:139 | when every fetched id is seen, nothing is new |
| Utils.EncodeChar | src/lib/utils.ts:11 | a character counts one UTF-16 code unit below U+10000 and two above |
| Utils.Utf16 | src/lib/utils.ts:11 | a string's JavaScript length is at least its number of characters |
| Utils.CheckUsername | src/lib/utils.ts:9-32 | each error is returned exactly when its check fails and every earlier check passed: too long (over 30 code units), too short (under 3), a dangerous character, an emoji, a character outside letters, digits, `_ . -` |
| Utils.UsernameMessage | src/lib/utils.ts:12-29 | each refusal reads as a sentence that starts "Username " and ends with a full stop |
| Utils.UsernameValidIff | src/lib/utils.ts:9-32 | a name is valid exactly when it has 3 to 30 code units, all letters, digits, `_`, `.` or `-` |
| Utils.AstralCountsTwice | src/lib/utils.ts:11 | a character above U+FFFF adds two to the length the limit checks |
| Utils.Utf16Append | src/lib/utils.ts:11 | the UTF-16 encoding of a concatenation is the concatenation of encodings |
| Utils.EmojiNeverAllowed | src/lib/utils.ts:24-30 | a character from the emoji ranges is caught by the emoji check and is outside the allowed set |
| Utils.FloorSeconds | src/lib/utils.ts:44 | `Math.floor(ms / 1000)` is the largest r with r * 1000 <= ms, for negative spans too |
| Utils.FormatRelativeDate | src/lib/utils.ts:39-41 | a date that does not parse is returned unchanged |
| Utils.FormatRelativeDateBuckets | src/lib/utils.ts:42-58 | floored seconds choose seconds, minutes, hours, days (at least one, with the time of day) or the localized date |
| Utils.FutureReadsAsSeconds | src/lib/utils.ts:44-46 | a future date reads as a negative or zero number of seconds |
| Auth.AllowedIgnoresCase | src/lib/auth.ts:73-79 | the sign-up domain check gives the same answer on an address and its lower-case form |
| Auth.SignUp | src/lib/auth.ts:70-148 | a user comes back exactly when there is no error, and exactly when the domain is allowed, the name is free, the account is created, the profile call succeeds and the row is read; a refused domain gives "Email is not allowed", a taken name "Username already taken", an already registered address "Email already registered", any other auth error its own message, no user "Failed to create account", a profile error "Failed to create user profile: " and its message, and a failed re-read that read's message |
| Auth.RefusedDomainCallsNothing | src/lib/auth.ts:81-86 | for a refused domain the answer does not depend on any service reply |
| Auth.ResolveEmail | src/lib/auth.ts:152-165 | an identifier with '@' is the e-mail; otherwise the looked-up e-mail is used when it is present and non-empty |
| Auth.DerivedName | src/lib/auth.ts:189-191 | with an e-mail, the name is the text before the first '@' (a prefix with no '@'); without one it is "user_" and at most eight characters of the id |
| Auth.NamesDifferOnlyOnEmpty | src/lib/auth.ts:189-191 | the nullish fallback of `signIn` and the falsy fallback of `getCurrentUser` (line 245) pick different names exactly when the metadata name is the empty string |
| Auth.SignIn | src/lib/auth.ts:150-221 | a user comes back exactly when there is no error; an unresolved identifier fails with "User not found"; a login error is passed through and a login with no user gives "Login failed"; after a login the profile row is returned, or, without one, a profile is created ("Failed to create user profile" when that fails) and the re-read row is returned or its error passed through |
| Auth.EmailIdentifierSkipsLookup | src/lib/auth.ts:155 | with '@' in the identifier the name lookup's result does not matter |
| Auth.CurrentUser | src/lib/auth.ts:233-267 | no auth user gives none; an existing profile row is returned; otherwise a profile is returned exactly when the create succeeds and the re-read is non-empty, and it is then the first re-read row |
| Auth.IsAdmin | src/lib/auth.ts:272-284 | the answer is truthy exactly when the call returned truthy data, and `false` otherwise |
| RegisterPage.FormError | src/app/register/page.tsx:38-56 | a bad username reports its message first; the form passes exactly when the username is valid, the passwords match and the password has at least 6 code units |
| RegisterPage.HandleSubmit | src/app/register/page.tsx:32-76 | a local error is shown without signing up; for a passing form the sign-up reply's error is shown as it is; the user is stored exactly when the form passes and sign-up returns a user with no error |
| RegisterPage.SubmitShowsSignUpReply | src/app/register/page.tsx:58-70 | submitting a passing form stores exactly the user `signUp` returns and otherwise shows exactly its error, so a taken name shows "Username already taken" |
| RegisterPage.MismatchBeforeLength | src/app/register/page.tsx:46-56 | a mismatch is reported before the length check |
| RegisterPage.PasswordBoundary | src/app/register/page.tsx:52 | six characters pass, five are refused |
| RegisterPage.RefusedFormSendsNothing | src/app/register/page.tsx:39-56 | a refused form's outcome does not depend on the sign-up reply |
| RegisterRoute.AllowedDomains | src/app/api/register/route.ts:35-39 | the allowlist holds exactly the non-empty trimmed lower-case comma pieces; none contains a comma or an upper-case letter |
| RegisterRoute.LowerIdempotent | src/app/api/register/route.ts:38 | lower-casing twice equals lower-casing once |
| RegisterRoute.BlankAllowlistAdmitsAll | src/app/api/register/route.ts:43-46 | an unset or blank allowlist admits every address |
| RegisterRoute.Post | src/app/api/register/route.ts:5-113 | the status is 200, 400, 403 or 500; a bad body is a 500; missing fields a 400; a 403 exactly when the token is set and differs; past the token, a 400 "Email is not allowed" exactly when the address is refused and then a 400 "Username already taken" exactly when the name exists; past those, "User already registered" becomes a 400 "Email already registered", any other auth error a 500 with its message, no user a 500 "Failed to create account", a profile error a 500 with its message, and OK exactly when every check passes and every service call succeeds |
| RegisterRoute.MissingFieldStopsFirst | src/app/api/register/route.ts:9-14 | with a missing field nothing later is consulted |
| RegisterRoute.UnsetTokenStopsNext | src/app/api/register/route.ts:17-24 | with an unset token the answer is the misconfiguration 500, whatever the rest |
| ActivityStats.StartOffset | src/lib/activityStats.ts:16-19 | the window covers 7, 30 or 90 days including today |
| ActivityStats.Page | src/lib/activityStats.ts:28-34 | a page holds at most 1000 rows, and a short page reaches the end of the rows |
| ActivityStats.FetchFrom | src/lib/activityStats.ts:27-47 | the fetched rows are a contiguous run of the window from the offset; the fetch stops at the end or at a failed request at a page boundary |
| ActivityStats.FetchAllWithoutErrors | src/lib/activityStats.ts:27-47 | when no request fails, every row of the window arrives |
| ActivityStats.FetchAll | src/lib/activityStats.ts:23-47 | the pagination loop returns exactly `FetchFrom` from offset 0 |
| ActivityStats.FetchFailed | src/lib/activityStats.ts:36-39 | a failed page ends the fetch |
| ActivityStats.FetchLastPage | src/lib/activityStats.ts:41-45 | a short page that did not fail is the last one fetched |
| ActivityStats.FetchFullPage | src/lib/activityStats.ts:43-46 | a full page is followed by the fetch from the next offset |
| ActivityStats.InitDays | src/lib/activityStats.ts:54-60 | the day map has exactly the days from start through today, each empty |
| ActivityStats.ActiveAtMostSolves | src/lib/activityStats.ts:66-69 | a day has no more active users than solves |
| ActivityStats.UsersOnMeans | src/lib/activityStats.ts:68 | a user is active on a day exactly when one of their solves falls on it |
| ActivityStats.Populate | src/lib/activityStats.ts:62-70 | each day gains its number of solves and its solving users; solves outside the window are ignored; no day is added |
| ActivityStats.CountDays | src/lib/activityStats.ts:52-70 | every day of the window maps to its solve count and user set |
| ActivityStats.Table | src/lib/activityStats.ts:75-81 | one row per day in ascending date order, with the solve count and the number of distinct users |
| ActivityStats.DailyReport | src/lib/activityStats.ts:49-81 | one row per day from start through today, strictly ascending, with the day's solves and active users, never more users than solves |
| ActivityStats.GetStatsByRange | src/lib/activityStats.ts:9-82 | 7, 30 or 90 rows ending today, ascending, counting the fetched solves of each day |
| Scoreboard.ByScore | src/app/scoreboard/page.tsx:41 | the summary sorted by descending score, as a permutation |
| Scoreboard.BaseEntry | src/app/scoreboard/page.tsx:45-51 | entry i has rank i + 1, the id text of i + 1, the row's name and score, and no history |
| Scoreboard.WithHistory | src/app/scoreboard/page.tsx:59-65 | the entry gains the user's history, and its score becomes the last history score, or stays when there is none |
| Scoreboard.TopRows | src/app/scoreboard/page.tsx:42 | the table rows are the first min(100, n) rows by score |
| Scoreboard.BoardShape | src/app/scoreboard/page.tsx:45-65 | entry i of the board is ranked i + 1 with the i-th name; the top ten carry their history, the rest keep the summary score and no history |
| Scoreboard.FinalEntry | src/app/scoreboard/page.tsx:45-65 | entry i is ranked and numbered i + 1 with the i-th name; within the top ten it carries the history and shows its last score; past them it has no history; without history it keeps the row's score |
| Scoreboard.EmptyDecidedByTopTen | src/app/scoreboard/page.tsx:79-81 | the chart is empty exactly when each of the top ten has no history or a zero score |
| Scoreboard.MergeHistories | src/app/scoreboard/page.tsx:58-65 | the loop rewrites the first ten entries with their histories in place and leaves the rest |
| Scoreboard.ScoreboardPage.constructor | src/app/scoreboard/page.tsx:21-22 | the page starts loading with an empty board |
| Scoreboard.ScoreboardPage.FetchData | src/app/scoreboard/page.tsx:31-72 | signed out: loading ends and the board stays; a summary request that throws on an RPC error or a failed history fetch leaves the page loading with its old board; otherwise the board is the merged top 100 |
| ScoreboardAll.Numbered | src/app/scoreboard/all/page.tsx:31-37 | every row becomes its numbered base entry |
| ScoreboardAll.AllBoard | src/app/scoreboard/all/page.tsx:28-37 | one entry per summary row, ranked 1..n in descending score, with the sorted rows' names and scores |
| ScoreboardAll.IdsDistinct | src/app/scoreboard/all/page.tsx:32 | distinct positions get distinct ids |
| ScoreboardAll.EveryRowListed | src/app/scoreboard/all/page.tsx:28-37 | every summary row is listed with its score |
| SolveScript.ParseInt | soal/solve.py:11 | `int()` only succeeds on text that is not blank |
| SolveScript.LineCode | soal/solve.py:9-13 | a line that decodes has exactly one '/' and yields a code point between 0 and 0x10FFFF |
| SolveScript.Step | soal/solve.py:5-13 | an error sticks; a blank line adds nothing; a decoded line appends its code; a failing line raises its error |
| SolveScript.Codes | soal/solve.py:5-14 | a decoded file has at most one code point per line, each between 0 and 0x10FFFF |
| SolveScript.ErrorSticks | soal/solve.py:5-13 | an error on a prefix of the file is the error of the whole file |
| SolveScript.DecodedLines | soal/solve.py:5-14 | a successful decode has one code per non-blank line, each that line's own code, in order |
| SolveScript.FailingLine | soal/solve.py:5-13 | a failure comes from a non-blank line that fails on its own |
| SolveScript.Solve | soal/solve.py:2-14 | the loop returns exactly the fold of `Step` over the lines |
| SolveScript.ParseNat | soal/solve.py:11 | `int()` reads back the decimal text of a natural number |
| SolveScript.BlockLineDecodes | soal/solve.py:9-13 | the line "a.0.0.0/8" decodes to a for every code point a |
| Difficulty.OrderListsStyles | src/config.ts:29-35 | the key order lists exactly the configured difficulties |
| Difficulty.OrderNoDups | src/config.ts:29-35 | the configured difficulties are distinct |
| Difficulty.Capitalize | src/components/custom/DifficultyBadge.tsx:14 | capitalising keeps the length and changes only letter case (the lower-case forms agree), leaving no lower-case first letter and no upper-case letter after it |
| Difficulty.CapitalizeIgnoresCase | src/components/custom/DifficultyBadge.tsx:14 | texts equal up to letter case capitalise alike |
| Difficulty.CapitalizeIdempotent | src/components/custom/DifficultyBadge.tsx:14 | capitalising twice is capitalising once |
| Difficulty.Normalize | src/components/custom/DifficultyBadge.tsx:13-14 | the trimmed text "imposible" becomes "Impossible"; anything else is capitalised after trimming |
| Difficulty.KeyCapitalized | src/config.ts:29-35 | each configured difficulty is its own capitalisation |
| Difficulty.NormalizeFindsKey | src/components/custom/DifficultyBadge.tsx:13-16 | any spacing and letter case of a configured difficulty normalises to that key |
| Difficulty.ColorFallback | src/components/custom/DifficultyBadge.tsx:16-25 | with every style mapped and no class equal to the fallback, the colour is the fallback exactly when the key is not configured |
| Difficulty.ColorOf | src/components/custom/DifficultyBadge.tsx:15-25 | the colour is one of the mapped classes or the fallback, and always the fallback for an unconfigured key |
| Difficulty.CardColor | src/components/challenges/ChallengeCard.tsx:24-34 | the card's circle is grey exactly when the normalised difficulty is not configured |
| Difficulty.Badge | src/components/custom/DifficultyBadge.tsx:11-30 | the label is the raw difficulty or "N/A" when missing or empty; the colour is grey exactly when the difficulty is not configured; the width defaults to 62 |
| Difficulty.CardAgreesWithBadge | src/components/challenges/ChallengeCard.tsx:23-34 | the card and the badge fall back to grey for the same texts |
| Difficulty.ColorIgnoresCase | src/components/challenges/ChallengeCard.tsx:24-34 | texts equal up to case and spacing get the same colour, except the exact text "imposible", which is purple while its other spellings are grey |
| Difficulty.Ribbon | src/components/challenges/ChallengeCard.tsx:16-21 | the blood ribbon shows exactly without a first blood, the plain ribbon exactly for a new challenge with one, and none otherwise |
| FilterBar.ConfiguredFirst | src/components/challenges/ChallengeFilterBar.tsx:32-35 | the ordered list has exactly the given entries, and no configured entry comes after an unconfigured one |
| FilterBar.UnconfiguredKeepOrder | src/components/challenges/ChallengeFilterBar.tsx:34 | two unconfigured entries keep their given relative order |
| FilterBar.ConfiguredFirstPermutes | src/components/challenges/ChallengeFilterBar.tsx:32-35 | for distinct entries and order, the ordered list is a duplicate-free permutation of the entries |
| FilterBar.ConfiguredPrefix | src/components/challenges/ChallengeFilterBar.tsx:33 | configured entries come in configured order |
| FilterBar.FilterKeepsOrder | src/components/challenges/ChallengeFilterBar.tsx:34 | `filter` keeps the relative order of the entries it keeps |
| FilterBar.SortedCategories | src/components/challenges/ChallengeFilterBar.tsx:28-35 | the category options are exactly the given categories, configured categories before all others |
| FilterBar.NormalizedDifficulties | src/components/challenges/ChallengeFilterBar.tsx:38-39 | the difficulty set is duplicate-free and holds exactly the capitalised difficulties |
| FilterBar.NormalizedAppend | src/components/challenges/ChallengeFilterBar.tsx:39 | the set keeps first-seen order: one more difficulty appends its capitalised form when that is new and changes nothing otherwise |
| FilterBar.NoCaseDuplicates | src/components/challenges/ChallengeFilterBar.tsx:38-39 | no two difficulty options differ only by letter case |
| FilterBar.SortedDifficulties | src/components/challenges/ChallengeFilterBar.tsx:40-43 | the difficulty options are a duplicate-free permutation of the normalised set, configured difficulties before all others |
| FilterBar.OnControl | src/components/challenges/ChallengeFilterBar.tsx:59-101 | each control changes only its own filter field |
| FilterBar.StatusOf | src/components/challenges/ChallengeFilterBar.tsx:70-77 | the status box selects "solved only" exactly for "solved", "unsolved only" exactly for "unsolved", and all otherwise |
| FilterBar.AllRestoresCategory | src/components/challenges/ChallengeFilterBar.tsx:86-89 | choosing a category and then "all" shows every challenge shown before |
| ChallengeList.NormalizeHint | src/app/challenges/page.tsx:69-93 | an array keeps its string items; an object or a falsy value gives no hints; an unparsable string gives one hint unless blank; more than one hint only comes from an array, direct or parsed |
| ChallengeList.JsonList | src/app/challenges/page.tsx:72-73 | a JSON array with one item per hint |
| ChallengeList.HintListReadsBack | src/app/challenges/page.tsx:74-78 | a string holding a JSON list of hints normalises back to exactly those hints |
| ChallengeList.FilteredChallenges | src/app/challenges/page.tsx:193-210 | the shown challenges are exactly those of the list that pass the filter |
| ChallengeList.ShownIff | src/app/challenges/page.tsx:193-210 | a challenge passes exactly when it matches the status, category and difficulty and, with a search, its title or description contains the search, ignoring case |
| ChallengeList.WideningKeepsShown | src/app/challenges/page.tsx:193-210 | the widest filter shows the whole list; clearing the search or the category never hides a shown challenge |
| ChallengeList.CategoriesOf | src/app/challenges/page.tsx:215 | the category of every challenge, in list order |
| ChallengeList.AllCategories | src/app/challenges/page.tsx:214-216 | the distinct non-empty categories of the list |
| ChallengeList.FirstRelated | src/app/challenges/page.tsx:222-225 | the first category containing the preferred name or contained in it, ignoring case; None exactly when there is none |
| ChallengeList.Matched | src/app/challenges/page.tsx:220-231 | the matched categories are distinct, non-empty members of the list |
| ChallengeList.MatchedCoversConfig | src/app/challenges/page.tsx:226-229 | every non-empty category found for a preferred name is matched |
| ChallengeList.Unmatched | src/app/challenges/page.tsx:232 | the rest are exactly the categories not matched |
| ChallengeList.OrderByConfig | src/app/challenges/page.tsx:218-233 | the loop computes exactly `ConfigOrder`: matched categories, then the rest sorted |
| ChallengeList.MatchedStep | src/app/challenges/page.tsx:226-230 | one preferred name adds its found category exactly when it is non-empty and not yet matched |
| ChallengeList.ConfigOrderPermutes | src/app/challenges/page.tsx:219-233 | ordering a list without repeats is a permutation of it without repeats |
| ChallengeList.SortedText | src/app/challenges/page.tsx:232 | sorting distinct names keeps them distinct and keeps the same names |
| ChallengeList.ConfigOrderTail | src/app/challenges/page.tsx:232 | the matched categories come first and the rest are in code-point order |
| ChallengeList.Categories | src/app/challenges/page.tsx:212-233 | the category options are the ordered distinct non-empty categories of the list |
| ChallengeList.Difficulties | src/app/challenges/page.tsx:235-237 | the difficulty options are the distinct difficulties of the list, in code-point order |
| ChallengeList.InCategory | src/app/challenges/page.tsx:240-244 | the group of a category holds exactly its challenges, in list order |
| ChallengeList.InCategorySnoc | src/app/challenges/page.tsx:242 | appending a challenge extends only its own group |
| ChallengeList.GroupStep | src/app/challenges/page.tsx:240-244 | one step of the reduce keeps the grouping invariant |
| ChallengeList.Grouped | src/app/challenges/page.tsx:240-246 | the grouping invariant: the keys are the distinct categories seen so far and name each group exactly once |
| ChallengeList.GroupByCategory | src/app/challenges/page.tsx:240-246 | the keys are the distinct categories in first-seen order and each group holds that category's challenges in order |
| ChallengeList.GroupedMeans | src/app/challenges/page.tsx:240-246 | the grouping invariant gives first-seen keys and complete groups |
| ChallengeList.DistinctSnoc | src/app/challenges/page.tsx:246 | a key is added to the end only the first time it is seen |
| ChallengeList.FlattenSnoc | src/app/challenges/page.tsx:240-244 | appending a challenge adds it once to the groups when its category is a key |
| ChallengeList.GroupingPlacesEachOnce | src/app/challenges/page.tsx:240-246 | every shown challenge appears in exactly one group, once |
| ChallengeList.OrderedKeys | src/app/challenges/page.tsx:247-262 | the group order is `ConfigOrder` of the keys, a permutation without repeats |
| ChallengeList.EmptyKeyShadows | src/app/challenges/page.tsx:251-254 | an empty category first in the keys is found for every preferred name, so nothing is matched |
| ChallengeList.FirstLoad | src/app/challenges/page.tsx:63-95 | the first load keeps every challenge and stores its hint as a JSON array whose normalisation is the normalisation of the stored hint |
| ChallengeList.HandleFlagSubmit | src/app/challenges/page.tsx:125-186 | nothing is sent when signed out or the input is blank; otherwise the trimmed flag is sent; a reply is shown as its own success and message, and a successful one clears the input; a thrown submission or a null reply shows "Failed to submit flag" and keeps the input; once `submitFlag` returns, the list becomes the reload's challenges with their hints as stored, or [] when the reload fails, and a thrown submission keeps the list |
| ChallengeList.ReloadDropsHintButtons | src/app/challenges/page.tsx:137-139 | a hint stored as the JSON text of a list shows its buttons after the first load and none after a flag submission reloads the list |
| ChallengeStore.Ranked | src/lib/challenges.ts:4-8 | the sorted leaderboard is a permutation of the board in descending final score |
| ChallengeStore.IndexOf | src/lib/challenges.ts:9 | `findIndex`: the first position holding the name, or -1 exactly when no row has it |
| ChallengeStore.UserRank | src/lib/challenges.ts:2-11 | no rank exactly when the name is absent; otherwise the 1-based position of the name's first row in the ranked board |
| ChallengeStore.RankRespectsScores | src/lib/challenges.ts:4-10 | everyone ranked above has at least the user's final score, everyone below at most |
| ChallengeStore.FirstBloodIds | src/lib/challenges.ts:40-44 | the first-blood ids are exactly the challenge ids of notifications of type exactly "first_blood" |
| ChallengeStore.Views | src/lib/challenges.ts:57-70 | one view per challenge row, in order |
| ChallengeStore.View | src/lib/challenges.ts:57-68 | the view keeps the id, is solved exactly for a solved id, has a first blood exactly for a first-blood id, is new exactly while recent or unblooded, is never recent without a creation time, and counts 0 solves when none are stored |
| ChallengeStore.GetChallenges | src/lib/challenges.ts:18-75 | no rows give nothing; each view is solved exactly when its id is a solved id, has a first blood exactly when a first-blood notification names it, is new exactly when created under 24 hours ago or without a first blood, and defaults its solve count to 0 |
| ChallengeStore.RibbonOfView | src/lib/challenges.ts:59-67 | on a mapped challenge the card shows the blood ribbon exactly without a first blood, the plain one exactly for a recent challenge with one |
| ChallengeStore.SerializeHint | src/lib/challenges.ts:113-118 | no hint is stored exactly for null, an empty list or a blank string |
| ChallengeStore.StoredHintReadsBack | src/lib/challenges.ts:113-118 | a stored hint is read back by the challenge page's normalisation as the list sent, or `[s]` for a string |
| ChallengeStore.CommonArgs | src/lib/challenges.ts:119-132 | the call carries the serialised hint, `is_dynamic` defaulting to false, and minimum, decay and attachments defaulting to 0, 0 and [] |
| ChallengeStore.AddArgs | src/lib/challenges.ts:98-140 | the add call sends the flag as given and no active switch |
| ChallengeStore.UpdateArgs | src/lib/challenges.ts:145-190 | the update call sends no flag exactly when the flag is missing or empty, and forwards the active switch |
| ChallengeStore.SummaryScore | src/lib/challenges.ts:251 | the summary score is the numeric score, or else the last progress score, or else 0 |
| ChallengeStore.Summary | src/lib/challenges.ts:246-255 | one summary row per leaderboard row, in order; no data gives none |
| ChallengeStore.SummaryRows | src/lib/challenges.ts:248-254 | each summary row keeps its leaderboard row's id, name and rank, with the summary score |
| ChallengeStore.SetChallengeActive | src/lib/challenges.ts:459-476 | true exactly when the call returned data whose `success` is the boolean true |
| ChallengeStore.Curve | src/lib/challenges.ts:281-285 | one history point per row of the user |
| ChallengeStore.CurveTotals | src/lib/challenges.ts:281-285 | each score is the total points of the user's rows up to that one, missing points counting 0 |
| ChallengeStore.CurveNonDecreasing | src/lib/challenges.ts:281-285 | with no negative points the curve never goes down |
| ChallengeStore.ReplayBuilds | src/lib/challenges.ts:272-288 | replaying the rows builds one entry per user with rows, holding that user's curve |
| ChallengeStore.BuiltSkip | src/lib/challenges.ts:275-276 | a row without a user changes nothing |
| ChallengeStore.BuiltExtend | src/lib/challenges.ts:277-285 | a row with a user creates or extends that user's entry and no other |
| ChallengeStore.TopProgress | src/lib/challenges.ts:257-289 | the loop's map has an entry exactly for each user with rows, holding that user's name and curve; keys are in first-seen order |
| ChallengeStore.HasRows | src/lib/challenges.ts:274-279 | a user has an entry exactly when some row belongs to them |
| ChallengeStore.ProgressShape | src/lib/challenges.ts:281-285 | with non-negative points a user's history has one point per row and never decreases |
| ChallengeStore.NameMap | src/lib/challenges.ts:306-310 | the id-to-name map has exactly the ids of the fetched users |
| ChallengeStore.TopProgressByUsernames | src/lib/challenges.ts:256-329 | empty input or no users gives {}; an error is thrown exactly when the user lookup fails, or when it found users and the solves query then fails; otherwise each named user with rows appears under their name with their curve, and every entry comes from such a user |
| ChallengeStore.RekeyStep | src/lib/challenges.ts:318-326 | one step of the re-keying loop keeps its invariant, skipping ids without a name |
| ChallengeStore.RekeyedMeans | src/lib/challenges.ts:317-328 | the re-keyed map holds every named user with rows, and nothing else |
| Notifications.StorageKey | src/contexts/NotificationsContext.tsx:25-31 | every seen-list key starts with the versioned prefix |
| Notifications.KeysSeparateUsers | src/contexts/NotificationsContext.tsx:31 | two different signed-in users never share a seen-list key |
| Notifications.NotifIdSplits | src/contexts/NotificationsContext.tsx:33 | without the separator character in its fields, a notification id splits back into type, challenge, user (or "") and time |
| Notifications.NotifIdInjective | src/contexts/NotificationsContext.tsx:33 | without the separator character in their fields, two notifications with the same id agree on every field the id shows |
| Notifications.Ids | src/contexts/NotificationsContext.tsx:38 | one id per fetched notification, in order |
| Notifications.Unread | src/contexts/NotificationsContext.tsx:41 | the unread count never exceeds the number of fetched ids |
| Notifications.UnreadZero | src/contexts/NotificationsContext.tsx:41 | the unread count is 0 exactly when every fetched id is in the seen list |
| Notifications.ReadSeen | src/contexts/NotificationsContext.tsx:39-40 | a missing key reads as the empty seen list |
| Notifications.Merged | src/contexts/NotificationsContext.tsx:55 | the merged list has no repetitions and holds exactly the seen ids and the fetched ids |
| Notifications.MergedKeepsSeen | src/contexts/NotificationsContext.tsx:55 | a seen list without repetitions stays in front of the merged list, in its order |
| Notifications.NotificationCenter.constructor | src/contexts/NotificationsContext.tsx:29 | the unread count starts at 0 |
| Notifications.NotificationCenter.Refresh | src/contexts/NotificationsContext.tsx:35-46 | storage is untouched; the unread count becomes the number of fetched ids not seen, or stays as it was when the stored list does not parse |
| Notifications.NotificationCenter.MarkAllRead | src/contexts/NotificationsContext.tsx:48-64 | the user's key is set to the merged list and the count to 0; when the stored list does not parse, nothing changes |
| Notifications.ReadAfterMark | src/contexts/NotificationsContext.tsx:48-57 | after marking all read, reading the key back gives the merged list and every fetched id counts as read |
| Notifications.MarkTouchesOneKey | src/contexts/NotificationsContext.tsx:56 | writing one user's key leaves every other key's seen list as it was |
| AuditLog.StyleOf | src/components/admin/AuditLogList.tsx:30-63 | the grey fallback style is used exactly for actions outside the five chip actions |
| AuditLog.StylesDistinct | src/components/admin/AuditLogList.tsx:30-56 | the five chip actions each have a different style |
| AuditLog.Capitalize | src/components/admin/AuditLogList.tsx:73 | same length; the first character upper-cased and the rest unchanged |
| AuditLog.Titled | src/components/admin/AuditLogList.tsx:71-74 | the reference title-case reading keeps the label's length |
| AuditLog.TitledChars | src/components/admin/AuditLogList.tsx:71-74 | in the reference reading each underscore becomes a space, each character opening a word is upper-cased, and every other character stays |
| AuditLog.TitledSplit | src/components/admin/AuditLogList.tsx:71-74 | the reference reading equals splitting at underscores, capitalising each word and joining with spaces |
| AuditLog.FormatAction | src/components/admin/AuditLogList.tsx:66-75 | "token_refreshed" reads "Session Renewed"; every other label is the action title-cased character by character, of the same length |
| AuditLog.Toggle | src/components/admin/AuditLogList.tsx:87-93 | toggling flips the action's membership, keeps every other action's, and keeps the list free of repetitions |
| AuditLog.ToggleTwice | src/components/admin/AuditLogList.tsx:87-93 | toggling twice restores the selection exactly when the action was absent, and its set of actions always |
| AuditLog.FilteredLogs | src/components/admin/AuditLogList.tsx:128-152 | an entry is listed exactly when it is a log entry passing the action and search filters; "token_revoked" is never listed |
| AuditLog.Shown | src/components/admin/AuditLogList.tsx:128-152 | a shown entry is never "token_revoked" and has a selected action when chips are selected; a query hides an entry without a searched field; with no chip and no query everything but "token_revoked" is shown |
| AuditLog.FilteredInOrder | src/components/admin/AuditLogList.tsx:128-152 | the listed entries keep their original order |
| AuditLog.UnfilteredShowsAll | src/components/admin/AuditLogList.tsx:128-152 | with no chip and no query every entry except "token_revoked" ones is listed |
| AuditLog.SearchMatches | src/components/admin/AuditLogList.tsx:141-148 | a query hides an entry without a searched field, and shows one whose field contains it ignoring case |
| AdminSolvers.PageOf | src/app/admin/solvers/page.tsx:66 | a page holds at most 100 rows: the slice of the server's list starting at the offset |
| AdminSolvers.FindById | src/app/admin/solvers/page.tsx:77 | `find`: nothing exactly when no row has the id, otherwise the first row with it |
| AdminSolvers.Gate | src/app/admin/solvers/page.tsx:38-62 | page one is loaded exactly when the session has loaded, someone is signed in and the admin check is truthy; the page waits exactly while the session loads |
| AdminSolvers.GateFollowsAdminCheck | src/app/admin/solvers/page.tsx:48-56 | with a signed-in user page one is loaded exactly when the admin call returned truthy data |
| AdminSolvers.SolversPage.constructor | src/app/admin/solvers/page.tsx:26-36 | the page starts with no rows, offset 0, more to load, an empty query and no pending delete |
| AdminSolvers.RpcRows | src/lib/challenges.ts:481-508 | the rows `getSolversAll` and `getSolversByUsername` give: the RPC's rows, or [] for an RPC error or missing data, never a thrown error |
| AdminSolvers.SolversPage.FetchSolvers | src/app/admin/solvers/page.tsx:64-74 | a page from offset 0 replaces the rows, a later page is appended; the offset moves past the page and more remain exactly when the page was full; an RPC error reads as an empty page (`getSolversAll` returns [] and never throws), so a failed first page empties the table and ends paging |
| AdminSolvers.SolversPage.LoadFirst | src/app/admin/solvers/page.tsx:56 | after the first load the page shows the first 100 rows of the server's list |
| AdminSolvers.SolversPage.LoadMore | src/app/admin/solvers/page.tsx:205-212 | "Load More" keeps the rows a prefix of the server's list and only adds rows |
| AdminSolvers.SolversPage.Search | src/app/admin/solvers/page.tsx:124-140 | a blank query reloads page one and leaves the search flag alone; otherwise the rows become the user's solves with no more to load, [] when the name search's RPC fails, and the search flag ends cleared |
| AdminSolvers.SolversPage.Reset | src/app/admin/solvers/page.tsx:148-151 | the query is cleared and page one reloaded; a failed RPC leaves the table empty |
| AdminSolvers.SolversPage.AskDelete | src/app/admin/solvers/page.tsx:76-85 | the id is pending and the dialog open; the detail is the listed row's name and title, or none exactly when no listed row has the id |
| AdminSolvers.SolversPage.DoDelete | src/app/admin/solvers/page.tsx:87-96 | a successful delete removes exactly the rows with that id and keeps the order of the rest; a failed one changes nothing |
| AdminSolvers.SolversPage.Confirm | src/app/admin/solvers/page.tsx:235-242 | with a pending id the solve is deleted and the dialog closed and cleared; without one nothing happens |
| AdminSolvers.DisplayNameAsWritten | src/app/admin/solvers/page.tsx:181 | the row label as written: a name of up to 20 characters is shown as is; one of 21 to 30 is shown whole with "..." after it although nothing was cut; a longer one shows its first 30 characters and "..." |
| AdminSolvers.AsWrittenAddsDotsToWholeName | src/app/admin/solvers/page.tsx:181 | a 25-character name is shown in full followed by "..." |
| AdminSolvers.DisplayName | src/app/admin/solvers/page.tsx:181 | corrected label: a name of up to 20 characters as is, a longer one as its first 20 characters and "..." |
| AdminSolvers.ShortenedDropsText | src/app/admin/solvers/page.tsx:181 | with the corrected label the dots always stand for text actually left out |
| AdminChallenges.EmptyFormSynced | src/app/admin/page.tsx:53-66 | the new-challenge form opens on the first configured category, with equal base and maximum points and no minimum warning |
| AdminChallenges.EditHint | src/app/admin/page.tsx:126-136 | an array keeps its strings; a non-blank text that does not decode to an array is kept whole; anything else gives no hint |
| AdminChallenges.EditHintAgainstList | src/app/admin/page.tsx:126-136 | the editor's hint reading agrees with the challenge page's on arrays, on texts holding arrays and on undecodable texts, and differs only on a text that decodes to a string |
| AdminChallenges.OpenEdit | src/app/admin/page.tsx:124-155 | the form gets the stored values, with non-zero points (falling back to the points, then 100), a category and difficulty that are never empty, the dynamic switch on only when stored true, and the editor's hint reading |
| AdminChallenges.SavedPayload | src/app/admin/page.tsx:268-285 | trimmed texts; a hint list only when the form has hints, holding the filled ones; only attachments with a URL; a flag exactly when the typed flag is not blank; a maximum exactly for a dynamic challenge |
| AdminChallenges.BuildPayload | src/app/admin/page.tsx:268-285 | the successive assignments build exactly the payload above |
| AdminChallenges.PayloadHintsFilled | src/app/admin/page.tsx:273 | filled hints are sent unchanged, and no hints as null |
| AdminChallenges.PayloadHintsBlank | src/app/admin/page.tsx:273 | a form whose hints are all blank sends an empty list, not null |
| AdminChallenges.HandleSubmit | src/app/admin/page.tsx:264-310 | nothing is sent exactly when adding with a blank flag, which shows "Flag is required for new challenges"; editing sends an update and adding a create with the trimmed flag; success closes and resets the form exactly when a call was made and succeeded |
| AdminChallenges.EditSaveRoundTrip | src/app/admin/page.tsx:124-155 | opening a well-formed stored challenge and saving it unchanged sends back its own title, description, category, difficulty, points, hints, attachments and flag |
| AdminChallenges.ZeroPointsSavedAsHundred | src/app/admin/page.tsx:143 | a stored challenge worth 0 points opens at 100 and is saved at 100 |
| AdminChallenges.StoreData | src/app/admin/page.tsx:287-295 | the payload handed to the store keeps the hint's absence and the flag, and sets no active switch |
| AdminChallenges.SavedHintStored | src/app/admin/page.tsx:273 | create and update store the same hint text; no hint is stored exactly when no filled hint was typed; a stored hint reads back on the challenge page as the filled hints |
| AdminChallenges.AdminFiltered | src/app/admin/page.tsx:324-329 | a challenge is listed exactly when it passes the search, category and difficulty filters |
| AdminChallenges.AdminShown | src/app/admin/page.tsx:324-329 | whatever the admin filter shows, the player's filter with the status switched off shows too; cleared filters show every challenge |
| AdminChallenges.AdminAgainstPlayer | src/app/admin/page.tsx:324-329 | every challenge the admin filter shows the player filter shows too; the converse holds when the title itself matches the search |
| AdminChallenges.ClearedShowsAll | src/app/admin/page.tsx:78-84 | clearing the filters lists every challenge |
| AdminChallenges.AdminDifficulties | src/app/admin/page.tsx:389 | the difficulty chips are the challenges' difficulties, each once |
| AdminChallenges.AdminCategories | src/app/admin/page.tsx:368-384 | the category chips are non-empty challenge categories, and every non-empty category has a chip |
| AdminChallenges.ListedCategories | src/app/admin/page.tsx:368-384 | ordering the categories as the challenge page does keeps exactly the challenges' non-empty categories |
| AdminChallenges.ListedSameCategories | src/app/admin/page.tsx:368 | lists with the same categories position by position have the same category chips |
| AdminChallenges.ConfigIndex | src/app/admin/page.tsx:420-421 | `findIndex` ignoring case: the first configured category equal to the given one, -1 exactly when none is |
| AdminChallenges.CompareAntisymmetric | src/app/admin/page.tsx:415-427 | swapping the two challenges flips the comparator's sign |
| AdminChallenges.CompareRanks | src/app/admin/page.tsx:415-427 | more points come first; on a tie a configured category precedes an unconfigured one, and earlier configured categories come first |
| AdminChallenges.Compare | src/app/admin/page.tsx:415-427 | a challenge with more points comes first; the comparator says "not after" exactly when the reference order `Precedes` does: points descending, then the configured slot, then the category text between unconfigured categories |
| AdminChallenges.PrecedesTransitive | src/app/admin/page.tsx:415-427 | the precedence order is transitive |
| AdminChallenges.ByCompare | src/app/admin/page.tsx:415-427 | the comparator is a total, transitive ordering |
| AdminChallenges.Displayed | src/app/admin/page.tsx:413-427 | the displayed list is a permutation of the filtered challenges, sorted by the comparator |
| AdminChallenges.UpdateAt | src/app/admin/page.tsx:333 | mapping with `idx === i` replaces entry i when it exists and changes nothing otherwise |
| AdminChallenges.RemoveAt | src/app/admin/page.tsx:334 | filtering with `idx !== i` drops entry i when it exists and changes nothing otherwise |
| AdminChallenges.ListHelpersUndo | src/app/admin/page.tsx:332-334 | writing back the old entry undoes an update, removing the last entry undoes an add, and a removal shortens the list by one |
| AdminChallenges.EmptyAttachmentDropped | src/app/admin/page.tsx:337 | an added, still empty attachment never reaches the payload |
| AdminChallenges.EmptyHintDropped | src/app/admin/page.tsx:332 | an added, still empty hint never reaches the payload, though it turns a null hint into an empty list |
| AdminChallenges.AddHint | src/app/admin/page.tsx:332 | one empty hint is appended after the others and nothing else in the form changes |
| AdminChallenges.UpdateHint | src/app/admin/page.tsx:333 | hint i becomes the new text; every other hint and the rest of the form stay; an index outside the list changes nothing |
| AdminChallenges.RemoveHint | src/app/admin/page.tsx:334 | hint i is removed and the later hints move up one; the rest of the form stays; an index outside the list changes nothing |
| AdminChallenges.AddAttachment | src/app/admin/page.tsx:337 | an empty file attachment, without a url, is appended after the others and nothing else in the form changes |
| AdminChallenges.UpdateAttachment | src/app/admin/page.tsx:338 | the chosen field of attachment i becomes the new text; every other attachment and the rest of the form stay; an index outside the list changes nothing |
| AdminChallenges.RemoveAttachment | src/app/admin/page.tsx:339 | attachment i is removed and the later ones move up one; the rest of the form stays; an index outside the list changes nothing |
| AdminChallenges.SetActive | src/app/admin/page.tsx:438 | the switched challenge gets the new active state and nothing else changes |
| AdminChallenges.OnToggleActive | src/app/admin/page.tsx:435-441 | a refused switch changes nothing; an accepted one updates the list and reports "Challenge activated" or "Challenge deactivated" |
| AdminChallenges.SetActiveSame | src/app/admin/page.tsx:438 | switching to the state a challenge already has changes nothing |
| AdminChallenges.FindById | src/app/admin/page.tsx:47 | nothing exactly when no challenge has the id; otherwise a listed challenge with it |
| AdminChallenges.AskDelete | src/app/admin/page.tsx:45-51 | the id is pending, the dialog open with an empty input, and the detail is the challenge found |
| AdminChallenges.DeleteNeedsTitle | src/app/admin/page.tsx:544 | deleting a listed challenge is enabled exactly when its title is typed; an unknown id is never blocked |
| AdminChallenges.DeleteDisabled | src/app/admin/page.tsx:544 | confirming is blocked only while the challenge's details are known, and then exactly while the typed text differs from its title |
| AdminChallenges.SolversAfterFetch | src/app/admin/page.tsx:157-160 | the first page replaces the solver list and a later page is appended after it |
| ChallengeForm.StripLeadingZeros | src/components/admin/ChallengeFormDialog.tsx:135 | never longer than the input, and empty exactly for the empty input |
| ChallengeForm.StripSuffix | src/components/admin/ChallengeFormDialog.tsx:135 | stripping only removes a prefix |
| ChallengeForm.StripShape | src/components/admin/ChallengeFormDialog.tsx:135 | stripped digits are digits, and a result of two or more digits does not start with '0' |
| ChallengeForm.StripKeepsValue | src/components/admin/ChallengeFormDialog.tsx:135 | stripping keeps the number the digits denote |
| ChallengeForm.DropZeroValue | src/components/admin/ChallengeFormDialog.tsx:135 | a leading zero adds nothing to the value |
| ChallengeForm.StripExamples | src/components/admin/ChallengeFormDialog.tsx:135 | "007" becomes "7", "000" keeps one "0", and "" stays "" |
| ChallengeForm.FieldOf | src/components/admin/ChallengeFormDialog.tsx:136-140 | a box is '' exactly when nothing is typed |
| ChallengeForm.Typed | src/components/admin/ChallengeFormDialog.tsx:135-140 | the number a box takes after stripping is the number the typed digits denote |
| ChallengeForm.ToggleDynamic | src/components/admin/ChallengeFormDialog.tsx:78-95 | the switch sets dynamic scoring and leaves points and maximum equal: on keeps the points, off keeps the maximum; nothing else changes |
| ChallengeForm.OnPointsInput | src/components/admin/ChallengeFormDialog.tsx:134-141 | points and maximum both take the typed value; nothing else changes |
| ChallengeForm.OnMaxPointsInput | src/components/admin/ChallengeFormDialog.tsx:172-179 | the maximum box has the same effect as the points box |
| ChallengeForm.OnMinPointsInput | src/components/admin/ChallengeFormDialog.tsx:204-216 | the minimum is '' exactly when cleared, else the typed number, clamped to the maximum (a cleared maximum counting 0); nothing else changes |
| ChallengeForm.OnDecayInput | src/components/admin/ChallengeFormDialog.tsx:231-237 | the decay takes the typed value, or ''; nothing else changes |
| ChallengeForm.MinInputClearsWarning | src/components/admin/ChallengeFormDialog.tsx:204-222 | after typing a minimum the "minimum above maximum" warning is off |
| ChallengeForm.SyncKept | src/components/admin/ChallengeFormDialog.tsx:78-237 | the points handlers and the switch leave points and maximum equal, and the other handlers keep them so |
| ChallengeForm.ToggleOnOff | src/components/admin/ChallengeFormDialog.tsx:78-95 | switching on then off restores the form except that the maximum now equals the points |
| ChallengeForm.FlagButtonDisabled | src/components/admin/ChallengeFormDialog.tsx:292 | the flag button is usable exactly when the flag is not loading and the challenge is being edited or has a flag typed |
| DetailDialog.EscapeQuotes | src/components/challenges/ChallengeDetailDialog.tsx:131-132 | escaping never shortens the text |
| DetailDialog.EscapedReadsBack | src/components/challenges/ChallengeDetailDialog.tsx:131-133 | inside an open single quote, an escaped text is read by a POSIX shell as exactly the original text |
| DetailDialog.EscapedHead | src/components/challenges/ChallengeDetailDialog.tsx:131-132 | the first character of an escaped text is read back as itself |
| DetailDialog.QuotedChar | src/components/challenges/ChallengeDetailDialog.tsx:133 | inside single quotes any character other than a quote stands for itself |
| DetailDialog.EscapedQuote | src/components/challenges/ChallengeDetailDialog.tsx:131-132 | the replacement for a quote reads back as one quote character |
| DetailDialog.QuotedReadsBack | src/components/challenges/ChallengeDetailDialog.tsx:133 | a quoted, escaped text adds exactly that text to the word being read |
| DetailDialog.PlainReadsBack | src/components/challenges/ChallengeDetailDialog.tsx:133 | unquoted characters without shell meaning are copied into the word |
| DetailDialog.SpaceEnds | src/components/challenges/ChallengeDetailDialog.tsx:133 | an unquoted space ends the word being read |
| DetailDialog.CommandReadsBack | src/components/challenges/ChallengeDetailDialog.tsx:133 | one command reads as the words `wget`, the url, `-O` and the file name, whatever quotes the url and name hold |
| DetailDialog.WordReadsBack | src/components/challenges/ChallengeDetailDialog.tsx:133 | a plain word followed by a space reads as that word |
| DetailDialog.UrlReadsBack | src/components/challenges/ChallengeDetailDialog.tsx:133 | the quoted url followed by a space reads as the url |
| DetailDialog.NameReadsBack | src/components/challenges/ChallengeDetailDialog.tsx:133 | `-O` and the quoted name read as `-O` and the name |
| DetailDialog.Commands | src/components/challenges/ChallengeDetailDialog.tsx:128-134 | one command per file |
| DetailDialog.JoinedReadsBack | src/components/challenges/ChallengeDetailDialog.tsx:128-135 | the joined line reads as each file's four words, separated by `&&` |
| DetailDialog.LastCommand | src/components/challenges/ChallengeDetailDialog.tsx:133 | the last command of the line reads as its four words |
| DetailDialog.NextCommand | src/components/challenges/ChallengeDetailDialog.tsx:135 | a command, " && " and a line that reads back read as the command's words, `&&` and that line's words |
| DetailDialog.EmitCommand | src/components/challenges/ChallengeDetailDialog.tsx:133 | emitting a command's words puts them in front of the rest |
| DetailDialog.SeparatorReadsBack | src/components/challenges/ChallengeDetailDialog.tsx:135 | " && " ends the word in progress and reads as the word `&&` |
| DetailDialog.FileName | src/components/challenges/ChallengeDetailDialog.tsx:130 | never empty: the trimmed name, else the url's last path piece, else `file-<idx>` |
| DetailDialog.Pairs | src/components/challenges/ChallengeDetailDialog.tsx:128-130 | each file pairs its url with its file name, in order |
| DetailDialog.CopyText | src/components/challenges/ChallengeDetailDialog.tsx:124-135 | there is nothing to copy exactly when no attachment is a file with a url or a name |
| DetailDialog.CopyTextReadsBack | src/components/challenges/ChallengeDetailDialog.tsx:124-135 | the copied line reads, word by word, as `wget url -O name` for each copyable file, joined by `&&` |
| DetailDialog.FileLabel | src/components/challenges/ChallengeDetailDialog.tsx:160 | a file label never exceeds 40 characters; a longer name keeps its first 37 and "..." and a name that fits is shown whole; an empty name reads "file" |
| DetailDialog.LinkLabel | src/components/challenges/ChallengeDetailDialog.tsx:187 | a named link is labelled like a file; an unnamed link shows at most 40 characters of its url and "...", and a link with neither reads "link" |
| DetailDialog.Partition | src/components/challenges/ChallengeDetailDialog.tsx:114-186 | every attachment is listed once, either under files or under links |
| DetailDialog.SolveLabel | src/components/challenges/ChallengeDetailDialog.tsx:78 | the tab label is the count and a word that is singular exactly at one, including "0 solves" |
| DetailDialog.HintButtons | src/components/challenges/ChallengeDetailDialog.tsx:208-222 | one button per element of a hint array and none otherwise; numbered only when there is more than one |
| DetailDialog.SubmitDisabled | src/components/challenges/ChallengeDetailDialog.tsx:243 | the submit button is enabled exactly when nothing is being submitted and the typed flag is not blank |
| UserProfile.FirstReached | src/components/UserProfile.tsx:82-127 | the first tier, in table order, whose lower bound the count reaches; past the table when none is reached |
| UserProfile.FirstWithin | src/components/UserProfile.tsx:50-80 | the first tier, in table order, whose upper bound the rank is within; past the table when none is |
| UserProfile.ReachedMonotone | src/components/UserProfile.tsx:82-127 | a larger count never lands in a lower tier |
| UserProfile.WithinMonotone | src/components/UserProfile.tsx:50-80 | a better rank never lands in a lower tier |
| UserProfile.RankTier | src/components/UserProfile.tsx:50-80 | ranks 1, 2-3, 4-10, 11-25, 26-50 and beyond 50 fall in the six rows of the rank table |
| UserProfile.RankBadge | src/components/UserProfile.tsx:50-80 | no rank badge exactly for a null or zero rank or a rank past 50 (a negative rank reads "Top 3"); "Top 1" exactly at rank 1 |
| UserProfile.BloodTier | src/components/UserProfile.tsx:82-101 | 10 or more, 5-9, 1-4 and no first bloods fall in the four rows of the first-blood table |
| UserProfile.SolveTier | src/components/UserProfile.tsx:103-127 | 100+, 50-99, 25-49, 10-24 and fewer solves fall in the five rows of the solves table |
| UserProfile.UserBadges | src/components/UserProfile.tsx:43-130 | at most three badges: the rank badge, then the highest first-blood badge, then the highest solves badge, each only when earned |
| UserProfile.PushRankBadge | src/components/UserProfile.tsx:49-80 | the rank chain appends the rank's badge, if any, and nothing else |
| UserProfile.PushBloodBadge | src/components/UserProfile.tsx:82-101 | the first-blood chain appends only the highest tier reached |
| UserProfile.PushSolvesBadge | src/components/UserProfile.tsx:103-127 | the solves chain appends only the highest tier reached |
| UserProfile.BadgeThresholds | src/components/UserProfile.tsx:82-127 | a first-blood badge needs at least one first blood, a solves badge at least ten solves |
| UserProfile.ShownFirstBloods | src/components/UserProfile.tsx:157-162 | the first bloods shown are exactly the fetched ones the user also solved, in fetched order |
| UserProfile.PernahTop | src/components/UserProfile.tsx:270-292 | the "Pernah Top" badge appears exactly for a non-zero highest rank of at most 3, and names that rank |
| UserProfile.RankText | src/components/UserProfile.tsx:327 | the rank reads "0" exactly for rank 0 and "#null" for no rank; any other rank reads '#' followed by its decimal digits, with a minus sign first when negative |
| UserProfile.RankTextReadsBack | src/components/UserProfile.tsx:327 | the text after '#' reads back as the rank: the value of its digits is the rank, or, after the minus sign, the rank's magnitude |
| UserProfile.RecentSolves | src/components/UserProfile.tsx:410-427 | at most the first ten solves are listed; "Show All" appears exactly when there are more than ten, that is exactly when some are not listed |
| ChatText.ReplaceAllAppend | src/components/livechat/LiveChatWidget.tsx:115-119 | a global replacement distributes over concatenation |
| ChatText.ReplaceAllAbsent | src/components/livechat/LiveChatWidget.tsx:115-119 | replacing a character the text does not contain changes nothing |
| ChatText.EscapeHtml | src/components/livechat/LiveChatWidget.tsx:113-120 | the five chained replacements escape each character on its own, and the result has no markup character left |
| ChatText.EscapeEach | src/components/livechat/LiveChatWidget.tsx:113-120 | escaping never shortens the text |
| ChatText.ChainAppend | src/components/livechat/LiveChatWidget.tsx:113-120 | the replacement chain distributes over concatenation |
| ChatText.ReplaceOne | src/components/livechat/LiveChatWidget.tsx:115-119 | a one-character text is replaced exactly when it is the character replaced |
| ChatText.ChainAmpersand | src/components/livechat/LiveChatWidget.tsx:115 | '&' becomes "&amp;" and the later replacements leave that entity alone |
| ChatText.ChainLess | src/components/livechat/LiveChatWidget.tsx:116 | '<' becomes "&lt;" |
| ChatText.ChainGreater | src/components/livechat/LiveChatWidget.tsx:117 | '>' becomes "&gt;" |
| ChatText.ChainQuote | src/components/livechat/LiveChatWidget.tsx:118 | '"' becomes "&quot;" |
| ChatText.ChainApostrophe | src/components/livechat/LiveChatWidget.tsx:119 | "'" becomes "&#039;" |
| ChatText.ChainPlain | src/components/livechat/LiveChatWidget.tsx:113-120 | any other character is kept |
| ChatText.ChainChar | src/components/livechat/LiveChatWidget.tsx:113-120 | the chain escapes each character exactly as the per-character table says |
| ChatText.ChainIsEachChar | src/components/livechat/LiveChatWidget.tsx:113-120 | the chain of replacements equals escaping each character on its own, so no inserted entity is escaped again |
| ChatText.EscapeEachClean | src/components/livechat/LiveChatWidget.tsx:113-120 | an escaped text holds none of the five markup characters |
| ChatText.UnescapeEntity | src/components/livechat/LiveChatWidget.tsx:113-120 | each of the five entities decodes back to its character |
| ChatText.DiffersAt | src/components/livechat/LiveChatWidget.tsx:113-120 | a text differing from a pattern at some position does not start with it |
| ChatText.UnescapePlain | src/components/livechat/LiveChatWidget.tsx:113-120 | a character other than '&' decodes as itself |
| ChatText.UnescapeStep | src/components/livechat/LiveChatWidget.tsx:113-120 | an escaped character decodes back to that character |
| ChatText.UnescapeEscape | src/components/livechat/LiveChatWidget.tsx:113-120 | decoding the escaped text gives back the original text |
| ChatText.EscapeRoundTrip | src/components/livechat/LiveChatWidget.tsx:113-120 | escaping character by character then decoding gives back the original text |
| ChatText.Sanitize | src/components/livechat/LiveChatWidget.tsx:122-124 | the result decodes to the first 500 characters of the trimmed text, holds no markup character, and is empty exactly for a blank text |
| ChatText.Ampersands | src/components/livechat/LiveChatWidget.tsx:122-124 | a text of n ampersands |
| ChatText.EscapeAmpersands | src/components/livechat/LiveChatWidget.tsx:113-120 | a text of ampersands grows fivefold when escaped |
| ChatText.SanitizeCanExceedLimit | src/components/livechat/LiveChatWidget.tsx:51-52 | 500 ampersands sanitise to 2500 characters: the 500 limit applies before escaping |
| ChatText.Collapse | src/components/livechat/LiveChatWidget.tsx:127 | every whitespace run becomes one space: nothing else is whitespace and no two spaces are adjacent; the first character is kept or becomes a space |
| ChatText.CollapseCollapsed | src/components/livechat/LiveChatWidget.tsx:127 | collapsing an already collapsed text changes nothing |
| ChatText.Truncate | src/components/livechat/LiveChatWidget.tsx:126-129 | at most n+1 characters; the collapsed, trimmed text when it fits in n, else its first n characters and "…" |
| ChatText.BmpTakeAgrees | src/components/livechat/LiveChatWidget.tsx:123 | on text without characters beyond U+FFFF, cutting after n characters and cutting after n UTF-16 code units give the same text |
| ChatText.TruncateKeepsClean | src/components/livechat/LiveChatWidget.tsx:126-129 | a collapsed, trimmed text that fits is returned unchanged |
| ChatText.TruncateIsClean | src/components/livechat/LiveChatWidget.tsx:126-129 | the result is collapsed and does not start with whitespace |
| ChatText.CollapsedSlice | src/components/livechat/LiveChatWidget.tsx:127-128 | a slice of a collapsed text is collapsed |
| ChatText.CollapsedEllipsis | src/components/livechat/LiveChatWidget.tsx:128 | appending "…" keeps a text collapsed |
| ChatText.PresenceUser | src/components/livechat/LiveChatWidget.tsx:156-163 | a presence entry always yields a non-empty user name |
| ChatText.MapPresence | src/components/livechat/LiveChatWidget.tsx:156-163 | one user per presence entry, in order |
| ChatText.MentionSource | src/components/livechat/LiveChatWidget.tsx:153-179 | fetched users are used as they are; the presence fallback lists each name once, ignoring case |
| ChatText.PresenceFallback | src/components/livechat/LiveChatWidget.tsx:156-178 | the fallback names each user once, ignoring case, and has no more entries than online users plus "all" for an admin |
| ChatText.FallbackFromOnline | src/components/livechat/LiveChatWidget.tsx:156-170 | the fallback invents no one but "all", and "all" only for an admin |
| ChatText.FallbackCoversOnline | src/components/livechat/LiveChatWidget.tsx:156-178 | every online user's name is offered exactly once, ignoring case |
| ChatText.FallbackAllFirst | src/components/livechat/LiveChatWidget.tsx:165-178 | for an admin, "all" heads the list |
| ChatText.PresenceUsersFromOnline | src/components/livechat/LiveChatWidget.tsx:156-163 | every mapped user comes from a presence entry |
| ChatText.PresenceUsersCoverOnline | src/components/livechat/LiveChatWidget.tsx:156-163 | every presence entry is mapped |
| ChatText.AllStaysFirst | src/components/livechat/LiveChatWidget.tsx:165-178 | removing repeated names keeps "all" first |
| ChatText.FilteredMentionUsers | src/components/livechat/LiveChatWidget.tsx:181-187 | at most 8 suggestions, each a source user whose name contains the query ignoring case, in source order; fewer than 8 means every match is listed |
| ChatText.MentionsGrow | src/components/livechat/LiveChatWidget.tsx:181-187 | the suggestions are the first eight matches in source order: one more user is appended exactly when it matches and fewer than eight are listed, and changes nothing otherwise |
| ChatWidget.EmojisOf | src/components/livechat/LiveChatWidget.tsx:498-513 | no more emojis than rows |
| ChatWidget.CountFor | src/components/livechat/LiveChatWidget.tsx:506 | no more than the number of rows |
| ChatWidget.AggOf | src/components/livechat/LiveChatWidget.tsx:498-513 | one entry per emoji used under the message, in order of first use |
| ChatWidget.UsedSnoc | src/components/livechat/LiveChatWidget.tsx:499-508 | an emoji is used after one more row exactly when it was used before or the row uses it |
| ChatWidget.ReactedSnoc | src/components/livechat/LiveChatWidget.tsx:507 | "reacted by me" after one more row holds exactly when it held before or the row is mine with that emoji |
| ChatWidget.EntrySnoc | src/components/livechat/LiveChatWidget.tsx:503-507 | one more row changes only the entry of its own message and emoji, adding one to the count |
| ChatWidget.EmojisSnoc | src/components/livechat/LiveChatWidget.tsx:503-505 | a row adds its emoji to the message's list exactly when it is new there |
| ChatWidget.UsedListedCounted | src/components/livechat/LiveChatWidget.tsx:498-513 | an emoji is listed exactly when some row uses it, exactly when its count is at least one |
| ChatWidget.EmojisDistinct | src/components/livechat/LiveChatWidget.tsx:498-513 | the emojis under one message are listed once each |
| ChatWidget.FindEmoji | src/components/livechat/LiveChatWidget.tsx:525 | `findIndex`: the first entry with the emoji, or past the end when there is none |
| ChatWidget.BumpInSteps | src/components/livechat/LiveChatWidget.tsx:502-507 | the loop body's successive updates give one counting step |
| ChatWidget.AggStepOther | src/components/livechat/LiveChatWidget.tsx:499-508 | a row under another message leaves a message's list alone |
| ChatWidget.AggStepSame | src/components/livechat/LiveChatWidget.tsx:499-508 | a row under the message counts its emoji once more |
| ChatWidget.AggStepNewEmoji | src/components/livechat/LiveChatWidget.tsx:503-507 | a new emoji is appended with count 1 |
| ChatWidget.AggStepKnownEmoji | src/components/livechat/LiveChatWidget.tsx:506-507 | a known emoji's count grows by one, in place |
| ChatWidget.EmojisHaveRow | src/components/livechat/LiveChatWidget.tsx:502 | a message with an entry has a row |
| ChatWidget.MessagesSnoc | src/components/livechat/LiveChatWidget.tsx:502 | one more row adds its message to the keys |
| ChatWidget.AggSnoc | src/components/livechat/LiveChatWidget.tsx:499-508 | one turn of the aggregation loop keeps the loop invariant |
| ChatWidget.Aggregate | src/components/livechat/LiveChatWidget.tsx:498-513 | a list exactly for each message with rows, holding the aggregation of that message's rows |
| ChatWidget.AggMeaning | src/components/livechat/LiveChatWidget.tsx:498-513 | each entry's count is the number of rows with that emoji and is at least one; "reacted by me" holds exactly when one of them is mine; every row's emoji is listed; no emoji twice |
| ChatWidget.OnReact | src/components/livechat/LiveChatWidget.tsx:519-543 | nothing changes when signed out or when the toggle fails; otherwise the message's list becomes its toggled copy and no other list changes |
| ChatWidget.Toggled | src/components/livechat/LiveChatWidget.tsx:524-537 | a new emoji or one I had not used gets my reaction with its count one higher; taking mine back lowers a shared count by one and clears my mark, or removes an entry whose count reaches zero |
| ChatWidget.ToggleKeepsOthers | src/components/livechat/LiveChatWidget.tsx:524-537 | toggling one emoji keeps every entry of another emoji and adds none |
| ChatWidget.ToggleJoinsAsRow | src/components/livechat/LiveChatWidget.tsx:524-538 | toggling an emoji I had not used gives the list that my new row would aggregate to |
| ChatWidget.ToggleTakesBack | src/components/livechat/LiveChatWidget.tsx:529-532 | taking back my only reaction removes the entry and closes the gap |
| ChatWidget.ToggleLeavesShared | src/components/livechat/LiveChatWidget.tsx:529-533 | taking back my reaction on an emoji others also used lowers its count by one, clears "reacted by me" and changes no other entry |
| ChatWidget.ToggleLeavesAsRowRemoved | src/components/livechat/LiveChatWidget.tsx:524-538 | taking back my reaction whose row is the latest gives the list the rows without that row aggregate to |
| ChatWidget.ToggleTwice | src/components/livechat/LiveChatWidget.tsx:524-538 | toggling twice restores the list, except when it removed my last reaction to an emoji |
| ChatWidget.ToggleTwiceNew | src/components/livechat/LiveChatWidget.tsx:526-527 | adding then taking back a new emoji restores the list |
| ChatWidget.ToggleTwiceKnown | src/components/livechat/LiveChatWidget.tsx:528-536 | toggling a known emoji twice restores the list when the entry survives |
| ChatWidget.FindEmojiPrefix | src/components/livechat/LiveChatWidget.tsx:525 | an emoji found just past a list's end is found there in any longer list |
| ChatWidget.FindEmojiSame | src/components/livechat/LiveChatWidget.tsx:525 | changing other entries does not move where an emoji is found |
| ChatWidget.SendDecision | src/components/livechat/LiveChatWidget.tsx:604-619 | a message is sent exactly when signed in, past the 1.5 s cooldown, with content or an attachment, and not a repeat of the last text without an attachment; the content is the sanitised text |
| ChatWidget.SendGate.constructor | src/components/livechat/LiveChatWidget.tsx:604-622 | the gate starts with no last send and no last message |
| ChatWidget.SendGate.OnSend | src/components/livechat/LiveChatWidget.tsx:604-622 | the outcome is the decision above; a send records its time and content before any network call, anything else leaves the gate alone |
| ChatWidget.NoSpam | src/components/livechat/LiveChatWidget.tsx:608-619 | within the cooldown, or with the same sanitised text and no attachment, nothing is sent |
| ChatWidget.OnInsert | src/components/livechat/LiveChatWidget.tsx:350-382 | with the chat closed, the mark is kept and the count grows by one exactly when the message is not mine and its time is newer than the mark (never when either is NaN), and stays otherwise; with the chat open, the count becomes 0, the mark becomes the message's time and it is stored exactly for a non-empty user id |
| ChatWidget.InitialUnread | src/components/livechat/LiveChatWidget.tsx:238-276 | with the chat closed and a user: no stored mark sets the mark to the newest message's time (now when there is none), stores it and counts 0; a stored mark takes the server's count of newer messages, 0 for null; a throwing query, no user or an open chat change nothing |
| ChatWidget.FirstCountSkipsHistory | src/components/livechat/LiveChatWidget.tsx:244-361 | after a first count with no stored mark (lines 244-262), the insert handler (lines 357-361) counts a closed-chat message exactly when it is someone else's and newer than the newest message at that time |
| ChatWidget.OpenInsertMarksRead | src/components/livechat/LiveChatWidget.tsx:357-382 | after a message arrives with the chat open, a later closed-chat message is counted exactly when it is someone else's and strictly newer |
| ChatWidget.NaNMarkCountsNothing | src/components/livechat/LiveChatWidget.tsx:358-379 | an unparsable time received with the chat open leaves a NaN mark, after which no closed-chat message is counted |
| ChatWidget.TwoDigits | src/components/livechat/LiveChatWidget.tsx:744 | a count up to 99 has at most two digits |
| ChatWidget.Badge | src/components/livechat/LiveChatWidget.tsx:742-744 | no badge exactly at 0; "99+" exactly above 99; otherwise the count's own digits |
| LiveChat.FileName | src/lib/livechat.ts:197 | never empty; a non-empty name is kept |
| LiveChat.EmptyPieceIffTrailingDot | src/lib/livechat.ts:238 | the last dot-separated piece is empty exactly when the name is empty or ends in '.' |
| LiveChat.ExtensionWithoutDot | src/lib/livechat.ts:238 | a name without a dot is its own extension |
| LiveChat.ExtensionAfterLastDot | src/lib/livechat.ts:238 | otherwise the extension is the dot-free text after the last dot |
| LiveChat.CheckUpload | src/lib/livechat.ts:193-238 | over 8 MiB is refused first; then a blocked suffix, ignoring case; then a type that is not image, PDF or audio; an accepted file keeps its name, type and size and gets the kind image, then PDF, then audio |
| LiveChat.KindFor | src/lib/livechat.ts:223-236 | image exactly for image types, PDF exactly for "application/pdf", audio exactly for audio types |
| LiveChat.PdfIsNeitherImageNorAudio | src/lib/livechat.ts:223-226 | the PDF type is neither an image nor an audio type |
| LiveChat.SvgRefusedFirst | src/lib/livechat.ts:204-221 | an SVG image is refused for its extension, before its image type is looked at |
| LiveChat.UploadPath | src/lib/livechat.ts:239-241 | the path sits under the room and user folders and ends in the extension |
| LiveChat.UploadAttachment | src/lib/livechat.ts:188-262 | a refused check is the error; otherwise the attachment is returned exactly when the upload succeeds, with the public url of its path and the checked name, size, type and kind |
| LiveChat.KindRoundTrip | src/lib/livechat.ts:120 | the stored kind name reads back as the kind |
| LiveChat.KindOf | src/lib/livechat.ts:29 | only "image", "pdf", "audio" and "file" name a kind, and a kind read back prints as the text it came from |
| LiveChat.ReadBackBase | src/lib/livechat.ts:101-107 | the base payload has exactly the five base columns and reads back as a message without reply or attachment |
| LiveChat.ReadBackReply | src/lib/livechat.ts:109-113 | setting the three reply columns shows up as exactly those fields, null for missing ones |
| LiveChat.ReadBackReplyId | src/lib/livechat.ts:110 | the reply id column shows up as the reply id |
| LiveChat.ReadBackReplyName | src/lib/livechat.ts:111 | the reply name column shows up as the reply name |
| LiveChat.ReadBackReplyContent | src/lib/livechat.ts:112 | the reply content column shows up as the reply text |
| LiveChat.ReadBackAttachment | src/lib/livechat.ts:115-121 | setting the five attachment columns shows up as the attachment |
| LiveChat.KeysReply | src/lib/livechat.ts:109-113 | the reply branch adds exactly the reply columns |
| LiveChat.KeysAttachment | src/lib/livechat.ts:115-121 | the attachment branch adds exactly the attachment columns |
| LiveChat.BuildPayload | src/lib/livechat.ts:101-121 | the payload has the base columns, the reply columns exactly when the options have the reply key, and the attachment columns exactly for a non-null attachment; it reads back as the message with those fields |
| LiveChat.PayloadFor | src/lib/livechat.ts:101-121 | a payload for a message holds the base columns and reads back its room, sender, role and content; without options it is exactly the base columns, with no reply and no attachment |
| LiveChat.SendMessage | src/lib/livechat.ts:93-129 | the inserted payload is the one `BuildPayload` describes (the same columns and the same read-back message); the call fails exactly when the insert returns an error, and with that error |
| LiveChat.MatchIds | src/lib/livechat.ts:139-145 | the ids of the user's rows for this emoji under this message |
| LiveChat.RemoveId | src/lib/livechat.ts:150-153 | deleting by id keeps exactly the rows with another id |
| LiveChat.ReactionTable.constructor | src/lib/livechat.ts:134-165 | the table starts empty and valid |
| LiveChat.ReactionTable.Toggle | src/lib/livechat.ts:134-165 | reacted is true exactly when no matching row existed, false exactly when one did; a failed lookup or write throws and leaves the table alone; the table keeps distinct positive ids |
| LiveChat.MatchIdsPositive | src/lib/livechat.ts:139-145 | with positive ids every match id is positive |
| LiveChat.InsertKeepsIds | src/lib/livechat.ts:159-161 | an insert with the next id keeps ids distinct and below the counter |
| LiveChat.RemoveKeepsIds | src/lib/livechat.ts:150-153 | a delete keeps ids distinct and below the counter |
| LiveChat.RemoveIdOrder | src/lib/livechat.ts:150-153 | a delete keeps ids distinct |
| LiveChat.ReactThenUnreact | src/lib/livechat.ts:134-165 | reacting and then taking the reaction back restores the table |
| LiveChat.UnreactThenReact | src/lib/livechat.ts:134-165 | taking a reaction back and reacting again restores the table's (message, user, emoji) rows |
| LiveChat.MatchIdsAppend | src/lib/livechat.ts:139-145 | matching distributes over concatenation |
| LiveChat.RemoveIdAppend | src/lib/livechat.ts:150-153 | deleting distributes over concatenation |
| LiveChat.RemoveIdAbsent | src/lib/livechat.ts:150-153 | deleting an id above every row's changes nothing |
| LiveChat.MatchIdsRemove | src/lib/livechat.ts:139-153 | deleting an id removes just that id from the matches |
| LiveChat.MatchIdsGone | src/lib/livechat.ts:149-157 | after the delete no row of the user's for this emoji is left |
| LiveChat.TriplesAppend | src/lib/livechat.ts:134-165 | the table's triples distribute over concatenation |
| LiveChat.TriplesRemove | src/lib/livechat.ts:149-157 | deleting the only matching row takes exactly its triple away |
| LiveChat.RemoveIdNotThere | src/lib/livechat.ts:150-153 | deleting an id no row has changes nothing |
| LiveChat.FetchReactions | src/lib/livechat.ts:170-180 | an empty id list gives [] without a query; otherwise the query's error is thrown, or its rows are returned, [] for none |
| LiveChat.FetchEmptyIgnoresQuery | src/lib/livechat.ts:171 | the empty-list answer does not depend on the database |

## Left out

- ChatText.Sanitize: keeps the first 500 characters, while `slice(0, 500)` keeps 500 UTF-16 code units; the two differ only on text with characters beyond U+FFFF (an emoji counts two units in JavaScript), and `ChatText.BmpTakeAgrees` proves them equal otherwise. A cut through a surrogate pair is not modelled, because the model's strings hold whole characters.
- ChatText.Truncate: counts characters where `slice(0, n)` counts UTF-16 code units, for the same reason and with the same agreement on text without characters beyond U+FFFF.
- DetailDialog.FileLabel: compares the name's length with 40 and cuts it to 37 in characters, where `length` and `slice` count UTF-16 code units; a name of 21 to 40 characters beyond U+FFFF is cut by the page and shown whole by the model. On text without such characters the two agree (`ChatText.BmpTakeAgrees`).
- DetailDialog.LinkLabel: counts characters for the name (40, cut to 37) and the url (cut to 40) where the page counts UTF-16 code units, as for FileLabel.
- AdminSolvers.DisplayNameAsWritten: compares the name's length with 20 and cuts it to 30 in characters, where `length` and `slice` count UTF-16 code units; a name of 11 to 20 emoji gets "..." on the page and not in the model. Names sent to the registration route are not validated, so such names can occur.
- AdminSolvers.DisplayName: the corrected rule counts characters too, with the same gap on names holding characters beyond U+FFFF.
- Network and storage: Supabase queries and RPCs, the Discord API, aiohttp, localStorage, the clipboard and the bot's JSON state files. Their replies are inputs and their writes are outputs, because they are foreign calls.
- Hashing: SHA-256 (`hashlib` and CryptoJS) is a function parameter, because its internals are not part of the platform's logic.
- Dates: ISO parsing, `strftime`, `toLocale*` and time zones. Timestamps are integers and day keys are day numbers supplied by a parameter.
- BotFeed.Reconcile: one parser, `Env.parseIso`, stands for both of the bot's ISO parsers: `datetime.fromisoformat` in the fetch filter (discord-bot/bot.py:138) and `dateutil.parser.isoparse` in the sort key (discord-bot/bot.py:285). Parsed times carry no offset kind. So the model misses the `TypeError` that Python's sort raises when it compares an offset-naive time with an offset-aware one. That happens when a stored "2024-05-01T10:00:00" meets a fetched "2024-05-01T11:00:00Z". It also misses a time that `fromisoformat` accepts and `isoparse` rejects. In the bot, such a cycle is logged by the `except` at lines 295-296 before `save_solves` runs, and every later cycle fails in the same way while that solve is in the feed. In the model, a cycle fails only when a merged time is rejected by the single parser. Fetched solves always pass it, so `Reconcile`, `BotFeed.SecondCycleReportsNothing` and `BotRelay.Relay.Apply` promise success where the bot can fail.
- LegacyBot.Queue: the same single parser stands for `fromisoformat` (discord-bot/bot_old.py:103) and for the sort key `isoparse` (discord-bot/bot_old.py:140). So the queue is always a rearrangement of the unseen events. In the bot, a mix of offset-naive and offset-aware times, which `notif_created_at` and `created_at` can give, makes the sort raise. That pass then announces nothing and does not update `seen`. `LegacyBot.Relay.PollCycle` and `LegacyBot.SecondPassFindsNothing` inherit this gap.
- BotRelay.RelativeDate: a time without an offset parses, and `now - then` then raises a `TypeError` outside the `try` (discord-bot/bot.py:91-92), which ends that table update. The model computes an age for it instead.
- JSON: `JSON.parse` and `JSON.stringify` are parameters over a small JSON value type. Only their results are modelled.
- Text: letter case and whitespace are ASCII only. Unicode case folding and Unicode spaces are not modelled, nor the control characters U+001C to U+001F that Python's `str.strip` also removes.
- Ordering: `localeCompare` and the default JavaScript sort become lexicographic order on characters. JavaScript and Python sorts become an insertion sort over sequences. In-place sorting of arrays is not modelled.
- Scoreboard.ByScore: states a permutation sorted by score, not that rows with equal scores keep their summary order, which JavaScript's stable sort gives. The same holds for every use of the insertion sort, the bots' time orders included.
- AdminChallenges.Displayed: states a permutation ordered by the comparator, not that challenges the comparator ties keep their fetched order.
- Object key order: `Object.keys` and insertion order are kept as sequences only where the result depends on them.
- ChallengeList.GroupByCategory: its keys are in first-seen order, while `Object.keys` lists keys that are array indices (such as "2024") first, in ascending numeric order. The page re-orders the keys with `ConfigOrder` before showing them, which puts the configured categories first and sorts the rest, so the shown order does not depend on this.
- Python `int()` with underscores or non-ASCII digits is not modelled. Only optional signs and ASCII digits are.
- Thin RPC wrappers in `src/lib/challenges.ts` pass their arguments to one call and return its reply, so only their argument building is modelled: `submitFlag`, `deleteChallenge`, `getChallengeById`, `getLeaderboard`, `getSolversByChallenge`, `getFirstBloodChallengeIds`, `getFlag`, `deleteSolver` and `getNotifications`. The reply of `getSolversAll` and `getSolversByUsername`, which is `[]` when the call fails, is modelled by `AdminSolvers.RpcRows`.
- AdminChallenges.HandleSubmit: the list that `getChallenges` reloads after a save is not modelled; that call returns `[]` on failure instead of throwing, so it never reaches the error message.
- The challenges page's `handleTabChange` (a router push) and `downloadFile` (a browser download) are user-interface effects with no logic of their own.
- The bot's `resolve_mention` is a parameter, because it calls Discord. The purge in `on_ready`, the asyncio scheduling and `sleep` are concurrency and timing.
- Live chat: realtime channels, presence, typing indicators, MediaRecorder and the mention caret handling (`handleMentionDetect`, `applyMention`) depend on browser events and timers.
- Audit log fetching (`getAuditLogs` and its limit) is one Supabase query. Only the filtering of the fetched rows is modelled.
- `Math.random` and `Date.now` are parameters.
- Toasts, timers and router redirects are user-interface effects. The model returns the message or target instead.
- Progress percentages are floating point and are not modelled. Counts and totals are.
- Auth wrappers with no logic of their own: `loginGoogle`, `sendPasswordReset`, `updatePassword` and `signOut` each forward one call.
- Records read with `||` fallbacks model a missing number as 0 and a missing text as "", the values the fallbacks produce.
- Auth.SignIn: the "User not found" message is stated as an implication, not as an iff, because the password sign-in can return a message with the same text.
- ChatText.Truncate: "ends in an ellipsis exactly when the text was longer" is not stated as an iff, because a text that itself ends in U+2026 breaks it. Both cases are stated instead.
- ChallengeForm.OnPointsInput, OnMaxPointsInput, OnMinPointsInput and OnDecayInput (with FieldOf and Typed): the number boxes are modelled as holding decimal digits only. Signs, decimal points and exponents are not modelled.

## Findings

| source | as written | input that shows it | evidently intended | confidence | as-written member | corrected member |
|---|---|---|---|---|---|---|
| src/app/admin/solvers/page.tsx:181 | names longer than 20 characters are cut to 30 characters and "..." is appended | a 25-character name is shown whole, followed by "..." although nothing was cut | cut to the same 20 characters the guard tests, then "..." | not executed | AdminSolvers.DisplayNameAsWritten (with AdminSolvers.AsWrittenAddsDotsToWholeName) | AdminSolvers.DisplayName |
