# Project Zomboid stats tracker — a verified model of its core

The tracker tails an events log that a game-server mod appends to, one JSON
object per line. It turns each new event into per-player statistics and chat
messages, and it answers leaderboard requests. This project models in Dafny
the logic of `main.py` that does this:

- **Rendering helpers** (`render.dfy`, `skills.dfy`): durations as
  "X days, Y hours", death ordinals, the death emoji and colour tiers, rank
  labels, the `Name=level,...` skill summary and the top-3 "peak skills".
- **Player stats store and handlers** (`stats.dfy`, `events.dfy`): the store is
  Python's insertion-ordered dict, kept as the order of first appearance plus a
  map. `init_player`, the death, spawn, level-up and login handlers and the router
  are functions from the tracker's state to its new state. Each returns a flag
  saying whether it raised part-way.
- **The tracker class** (`tracker.dfy`): the module-level variables
  (`player_stats`, `file_positions`, `last_events`, `unsaved_changes`, the
  messages sent, the stats file) are fields of `StatsTracker`. Its methods update
  them in place, and each method is proved equal to the function above.
- **Tail and dedup** (`tail.dfy`, `pipeline.dfy`): the offset and rotation rules
  of `download_log_tail`, with the server's replies as inputs. Also the per-line
  loop of `monitor_discord_events_log`: split, skip blank lines, skip lines that
  do not decode, skip remembered ids, and keep the id set bounded.
- **Leaderboards** (`leaderboard.dfy`, `ranking.dfy`): the death, survival,
  hours and `skill_<name>` boards and the daily survivor report. Each is a filter,
  then Python's stable descending sort, then `[:10]` (`[:15]` for the report).
  The report's in-place `list.sort` is an in-place insertion sort on an array.
- **Scheduling** (`schedule.dfy`): the daily and weekly board guards, the save
  on every 20th check and the consecutive-error counter of `monitor_server`.

Hours are exact `real`s, coordinates and levels are `int`s. A chat message is an
`Embed` of title, description lines and colour. JSON decoding is a parameter
`decode` that maps a stripped line to an event or to `Malformed`.

The model follows the code, including these behaviours a reader might not expect:

- Ties on a board keep the store's insertion order (a stable sort). They are not
  broken by name.
- The file position is committed before any line is parsed. A trailing partial
  line fails to decode and is lost; nothing is carried over to the next poll.
- The dedup id is `type_timestamp`, with player, skill and level added only for
  `level_up`. Two deaths in the same second share an id.
- The id is remembered before the handler runs, not after it succeeds. A handler
  that raises also skips the trim back to 1000 ids, so each batch broken off by a
  raise can leave the set one id larger than the last.
- The milestone policy announces exactly levels 5 and 10.
- There is no retry of the transfer or of the chat send.

## Model

| member | source | states |
|---|---|---|
| `Render.ReadFormatTime` | main.py:79-87 | For hours ≥ 0 the rendered duration reads back as exactly (floor(hours) / 24 days, floor(hours) mod 24 hours), with the days part present only when there is a day |
| `Render.FormatTimeInjective` | main.py:79-87 | Two non-negative durations render alike exactly when their whole hours agree |
| `Render.FormatTimeExamples` | main.py:79-87 | 5.5 → "5 hours", 1 → "1 hour", 25 → "1 day, 1 hour", 50.5 → "2 days, 2 hours" |
| `Render.DeathOrdinalParts` | main.py:89-95 | The ordinal is the number followed by "th" iff count mod 100 is in 10..20 or the last digit is not 1-3, else "st"/"nd"/"rd" by the last digit; the number reads back to the count |
| `Render.DeathOrdinalExamples` | main.py:89-95 | 1st, 2nd, 3rd, 4th, 11th, 12th, 13th, 21st |
| `Render.EmojiAndColorShareTiers` | main.py:97-108 | The death emoji, and likewise the death colour, are equal for two counts exactly when the counts are in the same tier 1 / 2-3 / 4-5 / 6-10 / >10 |
| `Render.RankLabelShowsRank` | main.py:303-307 | Ranks 1, 2 and 3 get the gold, silver and bronze medal, one character each; below that the label is "**i.**" showing the 1-based rank |
| `Render.RankLabelsDistinct` | main.py:303-307 | No two ranks share a label |
| `Render.RoundHalfEven` | main.py:226 | The rounding used for the two-decimal light level is within one half of its argument, strictly nearer when the argument is not halfway, and even when it is |
| `Render.SunriseAnnouncesNextDay` | main.py:219-232 | The sunrise message for game day d announces day d + 1 |
| `Skills.ParseSkillsString` | main.py:128-139 | The loop that fills the dict returns exactly the reference parse: empty input gives the empty dict, the first bad piece decides the error |
| `Skills.ParsePairs` | main.py:134-138 | A successful parse has distinct skill names |
| `Skills.ParsePairsMeaning` | main.py:134-139 | A parsed summary maps each name to the level of the last piece naming it (trimmed name and level), and to nothing else; pieces without `=` add nothing |
| `Skills.ParsePairsFails` | main.py:136-138 | Parsing raises exactly when some piece containing `=` has more than one `=` or a non-integer level |
| `Skills.ParsePairRejects` | main.py:136-138 | "Aiming" is skipped; "Aiming=5=6" raises |
| `Skills.ParseSkillsText` | main.py:128-139 | Parsing the summary written for a skill list with distinct clean names gives that list back |
| `Skills.TopSkillsCorrect` | main.py:150-152 | The peak skills are exactly min(3, number of entries above level 0) entries of the summary, all above level 0, in non-increasing level order, and no skill left out and above 0 has a higher level than one shown |
| `Ranking.TopFilterCount` | main.py:151-152 | When the filter keeps everything ranked at least as high as something it keeps, the filtered top n hold min(n, number kept overall) elements |
| `Ranking.FilterCountPerm` | main.py:151 | Sorting does not change how many elements a filter keeps |
| `Skills.Put` | main.py:138 | `skills[name] = level` overwrites the level in place for a known name and appends a new name at the end |
| `Skills.AsMapPut` | main.py:138 | As a map, that assignment is a map update |
| `Ranking.SortDescCorrect` | main.py:258 | The sort's output is in non-increasing key order, is a permutation of its input, and lists equal keys in input order (stable) |
| `Ranking.TopCorrect` | main.py:294-298 | `sorted(..., reverse=True)[:n]` has min(n, size) elements, is ordered, is drawn from the input, and nothing left out ranks above anything kept |
| `Ranking.SortInPlace` | main.py:258 | The in-place sort of the survivors array leaves the array equal to the stable descending sort of its old contents |
| `Ranking.InsertStep` | main.py:258 | One insertion pass places the next element after every element of the sorted prefix whose key is at least its own, leaving the rest unchanged |
| `Stats.InitPlayer` | main.py:58-77 | After `init_player` the store is valid and holds the username |
| `Stats.InitPlayerEffect` | main.py:58-77 | An absent username gets an all-zero, not-alive, skill-less record at the end of the insertion order; a present one leaves the store unchanged; no other record changes |
| `Stats.InitPlayerIdempotent` | main.py:60 | Calling `init_player` twice is calling it once, whatever the second Steam id |
| `Stats.DeathEffect` | main.py:426-455 | Deaths +1, not alive, hours and location overwritten; when the summary parses: skills overwritten, lifetime hours += h, longest = max(old, h), one message whose ordinal, emoji and colour follow the new death count; respawns, milestones and other players untouched; a bad summary raises after the first four updates only |
| `Stats.SpawnEffect` | main.py:457-480 | Respawns +1 and the character replaced by a live one at the spawn point with 0 hours and no skills; deaths, lifetime stats and other players untouched; one respawn message |
| `Stats.RespawnNoticeLines` | main.py:186-205 | The respawn message shows the average survival only when the player has died at least once |
| `Stats.LevelUpEffect` | main.py:482-514 | skills[skill] = level, hours overwritten, milestone = max(old, level) for that skill only; a message goes out iff the policy is "all", or "milestones" and the level is 5 or 10 |
| `Stats.LoginEffect` | main.py:516-533 | Alive, hours and skills overwritten, no message; a bad summary raises after `init_player` only |
| `Stats.Death` | main.py:426-455 | The death handler keeps the store valid |
| `Stats.Spawn` | main.py:457-480 | The spawn handler keeps the store valid |
| `Stats.LevelUp` | main.py:482-514 | The level-up handler keeps the store valid |
| `Stats.Login` | main.py:516-533 | The login handler keeps the store valid |
| `Events.Kind` | main.py:537 | An event is of an unknown kind exactly when its type is none of the eight the router knows |
| `Events.Route` | main.py:535-568 | Routing any event keeps the store valid |
| `Events.UnknownIgnored` | main.py:535-568 | An event of an unknown type changes nothing and does not raise |
| `Events.OnlyPlayerEventsChangeStore` | main.py:552-568 | Sunrise, sunset, daily report and leaderboard events leave the store and the unsaved flag alone, send at most one message, and raise only for an unknown board type |
| `Events.RouteProgresses` | main.py:426-568 | No event forgets a player or lowers a death count, respawn count, longest survival or skill milestone |
| `Events.RouteAppends` | main.py:535-568 | Handling an event appends at most one message and takes none back |
| `Events.SameSecondDeathsCollide` | main.py:616-627 | Two deaths with the same timestamp have the same id, whoever died |
| `Events.LevelUpsDistinctByLevel` | main.py:621-625 | Level-ups of one skill to different levels in the same second have different ids |
| `Tail.TailCases` | main.py:570-595 | No size → (None, old position); size == position → ("", position); size > position → (text, size) requested from the position; size < position → requested from 0; a failed transfer keeps the (possibly reset) position |
| `Tail.RotationReadsWhole` | main.py:578-591 | A file shorter than the saved position is read whole and the position becomes its size |
| `Tail.RotationExample` | main.py:578-586 | Size 100 after a saved position of 5000 reads from offset 0 |
| `Tail.PollsAreContiguous` | main.py:570-591 | For a file that does not change during a poll, two polls of a growing file hand over every character exactly once |
| `Tail.PartialLineSplits` | main.py:606-614 | A line cut by a poll reaches the decoder as two separate pieces, the tail of one batch and the head of the next |
| `Pipeline.ScanLines` | main.py:608-639 | The loop over the lines keeps the store valid |
| `Pipeline.ScanBounded` | main.py:629-635 | A batch leaves at most as many ids as it found or 1000, whichever is more, plus one when a handler broke it off; so from at most 1000 ids the set holds at most 1000 after a batch that ran to the end and 1001 after one that was broken off, and consecutive broken-off batches can grow it by one id each |
| `Pipeline.SkippedLines` | main.py:610-639 | Blank lines, lines that do not decode and lines whose id is remembered are skipped without effect |
| `Pipeline.SameIdOnce` | main.py:629-631 | When the set holds fewer than 1000 ids, of two lines with the same id in one batch only the first is dispatched |
| `Pipeline.SameSecondDeathsDropOne` | main.py:627-631 | When the set holds fewer than 1000 ids, a second player's death in the same second is never dispatched |
| `Pipeline.ScanProgresses` | main.py:608-639 | No batch forgets a player or lowers a counter, a longest survival or a milestone |
| `Pipeline.AsWrittenDispatchesNothing` | main.py:597-648 | As written, a batch changes neither the state nor the id set, and raises exactly when one of its lines decodes |
| `Pipeline.DeathLostAsWritten` | main.py:629-635 | A batch with one new death: as written it is lost; with the module-level set the player's death count goes up by one |
| `Leaderboard.RowsCorrect` | main.py:295 | `player_stats.items()` lists each player once with its record, in insertion order |
| `Leaderboard.SendLeaderboardCases` | main.py:288-424 | An empty store sends nothing; on a non-empty store a type other than death, survival, hours or `skill_...` raises |
| `Leaderboard.SkillNameOfKind` | main.py:378-379 | `skill_<name>` names the skill `<name>` |
| `Leaderboard.DeathBoardCorrect` | main.py:293-318 | The death board lists only players with deaths > 0, at most 10, most deaths first, none left out ranking higher; it is sent iff someone has died |
| `Leaderboard.HoursBoardCorrect` | main.py:352-376 | The hours board lists only players with hours > 0, at most 10, most hours first; sent iff someone has hours |
| `Leaderboard.SurvivalBoardCorrect` | main.py:320-350 | The survival board takes the top 10 by longest survival and then drops rows with 0; sent iff one of those 10 has survived |
| `Leaderboard.SurvivalLinesRanked` | main.py:332-338 | The survival lines are one line per row with a longest survival other than 0, in rank order, each drawn with and starting with that row's own rank label: dropped rows leave their ranks unused |
| `Leaderboard.KeptRanksCorrect` | main.py:332-336 | The ranks a board with skipped rows draws are exactly those of the rows kept, strictly increasing |
| `Leaderboard.NumberedIfAt` | main.py:332-338 | The j-th line drawn is the line of the j-th kept rank, and there are as many lines as kept ranks |
| `Leaderboard.SkillBoardCorrect` | main.py:378-422 | Candidates are exactly live players at current level > 0 and dead players at milestone > 0; each player appears at most once; the top 10 in non-increasing level order |
| `Leaderboard.DeathLinesRanked` | main.py:306-310 | One line per row, each starting with its rank's label |
| `Leaderboard.HoursLinesRanked` | main.py:365-368 | One line per row, each starting with its rank's label |
| `Leaderboard.SkillLinesRanked` | main.py:400-402 | One line per row, each starting with its rank's label |
| `Leaderboard.DailyReportCorrect` | main.py:249-286 | No survivors → nothing; else the 15 with most hours in non-increasing order, the day's header first, one rank line each at its position, each of the first 5's location line right after its rank line, and "...and N more" last iff more than 15 |
| `Leaderboard.DailyReportLines` | main.py:259-286 | The report's lines, line by line, for the survivors `Top` lists: header, rank lines, location lines, closing line |
| `Schedule.ErrorsStayBelowMax` | main.py:727-735 | A success clears the error counter; the fifth error in a row sleeps three intervals and clears it; the counter stays below 5 |
| `Schedule.FiveErrorsBackOff` | main.py:727-733 | Five errors in a row from a clean counter end in the long sleep |
| `Schedule.BoardsWhenDue` | main.py:693-713 | Daily boards are sent exactly when due (minute 0 of hour 0 or 12, not yet today, store non-empty), weekly ones after them exactly when due (Sunday 00:00, not yet today) |
| `Schedule.DailyAtMostOncePerDate` | main.py:693-703 | With a clock that does not go back, the daily boards go out on strictly increasing dates |
| `Schedule.WeeklyAtMostOncePerDate` | main.py:705-713 | Likewise for the weekly boards |
| `Schedule.SavesEveryTwentieth` | main.py:715-718 | A failed pass never saves and is not counted; a successful pass saves exactly when its count is a multiple of 20 and changes are unsaved; so a run saves no more often than the multiples of 20 it counts through |
| `Schedule.RunSnoc` | main.py:674-735 | Running one more pass of the loop is one more step of the schedule |
| `Tracker.StatsTracker.Load` | main.py:29-42 | A missing or unreadable stats file gives an empty store and no positions; a readable one gives its store and positions |
| `Tracker.StatsTracker.SaveStats` | main.py:44-56 | A successful save writes the store and positions and clears the unsaved flag; a failure in `open` changes nothing; a failure in `json.dump`, after `open` truncated the file, leaves a file that loads as empty and keeps the flag. Nothing else changes, and the new variables are `Save`'s |
| `Tracker.SaveLoads` | main.py:29-56 | The three outcomes of a save on values: the file written with the store and positions and the flag cleared; the file unreadable and the flag kept; everything as it was |
| `Tracker.StatsTracker.InitPlayer` | main.py:58-77 | The in-place `init_player` gives the store `Stats.InitPlayer` describes, and nothing else changes |
| `Tracker.StatsTracker.HandleDeath` | main.py:426-455 | The in-place death handler reaches the state and raise flag of `Stats.Death` |
| `Tracker.StatsTracker.MarkDead` | main.py:438-442 | The death counter goes up by one and the character is marked dead with the event's hours and location; no other field and no other player changes |
| `Tracker.StatsTracker.RecordDeath` | main.py:444-455 | The skills become the parsed ones, the lifetime hours grow by the event's hours, the longest survival is raised when beaten, the unsaved flag is set and one death message is sent |
| `Tracker.StatsTracker.HandleSpawn` | main.py:457-480 | The in-place spawn handler reaches the state of `Stats.Spawn` |
| `Tracker.StatsTracker.HandleLevelUp` | main.py:482-514 | The in-place level-up handler reaches the state of `Stats.LevelUp` |
| `Tracker.StatsTracker.HandleLogin` | main.py:516-533 | The in-place login handler reaches the state and raise flag of `Stats.Login` |
| `Tracker.StatsTracker.SendDailyReport` | main.py:249-286 | Sorting the survivors in place and building the report sends exactly the report `DailyReport` describes, or nothing |
| `Tracker.StatsTracker.SendLeaderboard` | main.py:288-424 | Sends the board `SendLeaderboard` selects, or nothing, and raises for an unknown type; the store is untouched |
| `Tracker.StatsTracker.SendBoards` | main.py:697-712 | The scheduled boards are sent one after another, in order |
| `Tracker.StatsTracker.HandleDiscordEvent` | main.py:535-568 | The in-place router reaches the state and raise flag of `Events.Route` |
| `Tracker.StatsTracker.HandlePlayerEvent` | main.py:540-550 | A death, level-up, character-created or login event reaches the state and raise flag of `Events.Route` |
| `Tracker.StatsTracker.HandleNotice` | main.py:552-568 | Any other event reaches the state and raise flag of `Events.Route` |
| `Tracker.StatsTracker.ProcessLine` | main.py:609-639 | One loop pass updates the state and the id set as `Pipeline.ScanLine` does (with the corrected id set, see ## Findings) |
| `Tracker.StatsTracker.ProcessLines` | main.py:608-639 | The loop with the module-level id set reaches the state, id set and raise flag of `Pipeline.ScanLines` (with the corrected id set, see ## Findings) |
| `Tracker.StatsTracker.MonitorEventsLog` | main.py:597-648 | The in-place poll reaches the state, id set and positions of `PollLog`: the position is committed to the new one and the lines scanned only when the poll returned non-empty text; otherwise nothing changes (with the corrected id set, see ## Findings) |
| `Tracker.StatsTracker.RunPass` | main.py:674-735 | A failed connection changes nothing and counts as an error. A pass whose `quit` fails leaves the poll's effect on players, positions and id set, leaves the disk alone and counts as an error. A pass that gets through leaves the poll's effect, counts as a poll at its own clock with "anyone tracked" and "unsaved" as the poll left them, sends the boards the schedule picks and saves exactly when the schedule says so, with the three outcomes of `SaveStats`. The new variables and outcome are `PassStep`'s |
| `Tracker.StatsTracker.Stop` | main.py:722-725 | On an interrupt with unsaved changes, the save's outcome as in `SaveStats`; with none, nothing changes; the new variables are `Interrupt`'s |
| `Tracker.StatsTracker.Serve` | main.py:650-735 | The monitoring loop runs the schedule over the passes it saw, keeps the error counter below 5, sleeps after each pass what the schedule decides for it, stops only at an interrupt, saves unsaved changes there (the file written, kept, or left unreadable as the write ends), and never takes a message back. The final variables, stats file, schedule and `dirty` flag are those of the fold `Serving` |
| `Tracker.PassStep` | main.py:674-735 | One pass on values (poll, then boards, then a save when the schedule says so) keeps the store valid |
| `Tracker.Serving` | main.py:650-735 | The loop on values, pass by pass until the first interrupt, keeps the store valid |
| `Tracker.PassStepFacts` | main.py:674-735 | A pass is an error exactly when the connection or `quit` failed; a failed connection changes nothing; the stats file changes only when a pass got through and the schedule said to save |
| `Tracker.ServingFacts` | main.py:650-735 | The loop on values reports unsaved changes only when an interrupt arrived, and its error counter stays below 5 |
| `Tracker.LoggedSnoc` | main.py:674-735 | Recording a pass's outcome and the sleep the schedule picks keeps the loop's record in step with the passes and the schedule |
| `Tracker.PollLog` | main.py:597-648 | One poll keeps the store valid |
| `Text.JoinSplit` | main.py:608 | Splitting on a character and joining back gives the input |
| `Text.ParseIntOfString` | main.py:138 | `int(str(i)) == i` |
| `Text.StripSlice` | main.py:610 | `strip()` keeps a contiguous slice that neither starts nor ends with whitespace and drops only whitespace |
| `Text.BlankIffAllSpace` | main.py:610 | A line is skipped as blank exactly when all its characters are whitespace |
| `Text.RemoveAllAbsent` | main.py:379 | Removing a pattern that does not occur changes nothing |

## Findings

| source | as written | input that shows it | evidently intended | confidence | as-written member | corrected member |
|---|---|---|---|---|---|---|
| main.py:629-635 | `last_events` is assigned inside `monitor_discord_events_log` without a `global` declaration, so Python treats it as local to the whole function; the read at line 629 raises `UnboundLocalError`, which the handler at line 647 catches, ending the batch before any event is dispatched | any batch with one line that decodes, e.g. one new death: the death is never counted | the module-level id set is read, extended and trimmed | high (Python scoping rule), not executed | `Pipeline.AsWrittenScan` (shown by `Pipeline.DeathLostAsWritten`) | `Tracker.StatsTracker.ProcessLines` over `Pipeline.ScanLines` (bounded by `Pipeline.ScanBounded`) |

## Left out

- FTP transport (connect, login, `SIZE`, `RETR`, `quit`, the 550 handling): the server's replies are inputs (`Tail.SizeReply`, `Tail.RetrReply`), and a pass that failed is an input too (`Tracker.Pass`).
- UTF-8 decoding with `errors='ignore'`: the retrieved bytes arrive as text. A multi-byte character that a poll cuts in two is dropped by the source (main.py:588); the model does not see it.
- `Tail.PollsAreContiguous`: assumes the file does not change during a poll. Bytes appended between `SIZE` and `RETR` are read by this poll, but the position becomes the size `SIZE` reported (main.py:573, 589), so the next poll reads them again.
- Coordinates: the source keeps whatever JSON number the mod writes as a location (main.py:432-433, 462); the model keeps ints.
- `Text.ParseInt`: accepts an optional sign and ASCII digits with single underscores between them. Python's `int()` also accepts surrounding whitespace (the caller strips the text first, main.py:138) and other Unicode digits.
- JSON decoding: the parameter `decode`. A line that decodes to JSON that is not an object with the expected fields, or with a level that `int()` rejects, is not modelled; such a line raises in the source.
- Discord I/O: a send always succeeds and appends its message to `outbox`; the HTTP status check is not modelled.
- File I/O of the stats file: the file is a value (`Tracker.StoredFile`); how a write ends is an input (`Tracker.Write`). A `json.dump` that fails part-way leaves a partial file, modelled as one that does not load.
- Clocks and sleeps: the spawn time and the scheduler's date, hour, minute and weekday are inputs; the sleep that ends each pass (main.py:720, 732, 735) is returned as a number (`Schedule.Plan.sleep`); the 2-second pauses between scheduled boards (main.py:699, 701, 712) are dropped; embed timestamps are dropped.
- Floating point: hours are exact reals, so float rounding in sums and averages is not modelled.
- Embed cosmetics: footers and the webhook user name are dropped.
- Start-up: environment variables and the `__main__` check; `SKILL_NOTIFICATIONS`, the log path and the check interval are parameters.
- Which 1000 ids `set(list(last_events)[-1000:])` keeps depends on set iteration order: the choice is the parameter `trim`, assumed to keep 1000 of the ids.
- The `level` part of a level-up id is rendered as `str(int)`; a level that the mod writes as a string would render differently.
- A keyboard interrupt is modelled only at the start of a pass of the monitoring loop.
