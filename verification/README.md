# Verified model of the player's protocols, codecs and stores

A Dafny model of the parts of the application in which state, interleaving or text formats are
hard to get right, with proofs of what they keep.

- **Playback** (`PlaybackProtocol`, `PlaybackSafety`, `PlaybackRest`, `PlaybackProgress`,
  `PlaybackSuccess`, `PlayerHost`). Each `play` call owns a backend session and an intent number.
  The model is a machine whose steps are the stretches of code between two awaits; the environment
  answers requests, delivers answers, lets tasks time out and finishes closes in any order. A run is
  any sequence of events, so every statement about `Run(events)` is one about every interleaving.
  `PlayerHost.Player` is the object with its mutable fields: each of its methods is the step of the
  same name and keeps the invariant of all runs, which is its `Valid()`. `PlaybackRest` tells what
  is open, and what the runtime names, once everything has settled, `PlaybackProgress` that
  everything does settle when no further call is made, and `PlaybackSuccess` what a play or a stop
  that is left to itself then has brought about.
- **Tasks, lanes and recovery** (`RequestTask`, `TaskLanes`, `PlayerSync`). The cancellable
  operation, the table that keeps one task for each lane, and the sharing of one recovery by all
  error reports of a failed playback.
- **Search** (`SearchPool`, `SearchHost`, `SearchResults`, `SearchProgress`). Up to four workers
  share one index and one result map and publish after every probe.
- **JSON** (`JsonCodec`, `JsonHost`, `JsonNumbers`, `JsonRoundTrip`, `JsonLocality`, `JsonWriting`,
  `JsonAccepted`, `JsonPrinted`, `SearchDocument`). The recursive-descent parser with its moving
  index, the printer with its shared buffer, and the scanner that cuts one object out of a web page.
  Texts are sequences of UTF-16 units; numbers are longs or decimals with a scale, as Java's
  `BigDecimal` reads and prints them. The grammar is that of sections 2 to 7 of RFC 8259, read more
  loosely: `JsonWriting` lists the ways in which a value may be written down, `JsonAccepted` proves
  that these are all that is accepted, and `JsonPrinted` which one of them is printed.
- **Subtitles** (`Strings`, `SubtitleTime`, `Subtitles`, `SubtitleRoundTrip`, `SubtitleExact`,
  `SrtReading`, `VttReading`, `SubtitleAccepted`, `SubtitleFiles`). Readers for SRT and WebVTT, the
  WebVTT printer, time stamps, escaping, and the field cutter for ASS. `SrtReading` and `VttReading`
  write files in every usual manner and prove what is read of them; `SubtitleAccepted` and
  `SubtitleFiles` say of any text whether it is accepted and as what.
- **Record table and backup** (`TextOrder`, `BusinessData`, `BusinessRules`, `BusinessBackup`).
  Validated and sanitised writing, backup into one object with `entity/id` keys, restore.
  `BusinessRules` says what sanitising removes and what validation lets pass.
- **Favourites** (`KeyedTable`, `Favorites`, `FavoritesSafety`, `FavoritesSnapshot`,
  `FavoritesEffects`, `FavoritesHost`). Favourites and their groups over two tables, with
  transactions and the sorted snapshot.
- **Playlists** (`PlaylistWire`, `EpisodeOrder`, `PlaybackCatalog`, `CatalogReading`,
  `PlaylistRoundTrip`, `PlayerField`). One side joins lines and episodes into two strings with
  `$$$`, `#`, `$` and `|`; the other splits and sorts them. What is written and what is read are
  each told apart from the code, and then put together.
- **Form bodies** (`FormEncoding`). The encoder of section 5.2 of the WHATWG URL Standard as the
  request path has it, and the parser of section 5.1 that undoes it.
- **Watchdog and candidates** (`Watchdog`, `Recovery`, `RecoveryContent`). The timed watchdog of a
  playback, the choice of episodes a failed playback may continue with, and when two details are the
  same content.

`Options`, `Counting`, `SortedLists` and `Units` hold what several parts share. Where the source
changes an object or runs a loop, the model has a class or a method with that loop, proved equal
to a function; the properties are proved about the function. The `Valid()` of each class is the
invariant of its runs, so its methods also promise what follows from it.

## What was found

Some claims one would make about the code do not hold as they stand. For each of these the exact
condition is proved, and an input that falls on the other side of it is given.

- A printed JSON document is read back as it was if and only if no decimal in it has scale zero
  and none has an exponent beyond the int range (`JsonRoundTrip.RoundTripIff`). The first kind
  comes back as a long, the second is rejected, and both come out of texts the parser accepts
  (`JsonRoundTrip.DecimalsAreLost`).
- A final search list is independent of the schedule if and only if no two sites share a key
  (`SearchResults.ScheduleIndependentIffKeysDistinct`, `SearchResults.TwoSchedules`). Importing a
  configuration does not rule shared keys out (src-tauri/src/config_catalog.rs:652-702).
- A favourites reorder accepts repeated ids; the snapshot shows the requested order if and only
  if the ids are distinct (`FavoritesSnapshot.ReorderListsRequestIff`,
  `FavoritesSnapshot.RepeatedIdAccepted`).
- Toggling a title on and off restores the favourites if and only if the id it was given was
  free (`FavoritesSnapshot.ToggleTwiceIff`, `FavoritesSnapshot.UsedIdAccepted`).
- Backup and restore give the records back if and only if no entity name holds a slash
  (`BusinessBackup.BackupRoundTripIff`, `BusinessBackup.SlashIsLost`).
- When everything has settled, a session that the runtime does not name is open if and only if a
  later `play` took it and failed before its first wait was over, its own task was never
  aborted, and no stop ever captured it (`PlaybackRest.LeftOpenIff`,
  `PlaybackRest.PredecessorCanLeak`, `PlaybackRest.AbandonedAndClosed`).
- When everything has settled, the session that the runtime does name is closed if and only if
  the task that committed it was aborted behind the commit, or a stop captured it and was then
  overtaken (`PlaybackRest.NamesClosedIff`, `PlaybackRest.RuntimeCanNameClosedSession`,
  `PlaybackRest.OvertakenStopLeavesName`). Behind the commit `play` only awaits a history call
  that returns at once while the status is `loading` (renderer/src/tauri-renderer-api.ts:1431-1440),
  so the first way needs a cancel within one microtask; the overtaken stop is the practical one.
- SRT time stamps with two fields lose their seconds, so they are read as they are meant if and
  only if the minutes are below 60 and the seconds are zero; of WebVTT ones only the minutes are
  checked (`SubtitleTime.SrtTwoFieldIff`, `SubtitleTime.SrtLosesSeconds`,
  `SubtitleTime.VttTwoFieldIff`, `SubtitleTime.VttTakesManySeconds`).
- Cues printed as WebVTT read back if and only if every id is one that is read as an id, every
  time is in range and no text has a blank line; for cues read from SRT that leaves WebVTT
  keywords as ids and blank lines (`SubtitleExact.WebVttRoundTripIff`,
  `SubtitleExact.KeywordIdIsLost`, `SubtitleExact.SrtToWebVttIff`,
  `SubtitleExact.SrtKeywordIsLost`).
- WebVTT that is read and printed again is escaped a second time; text survives reading
  unchanged if and only if it holds none of the five escaped characters and no carriage return
  (`SubtitleRoundTrip.SanitizeUnchangedIff`, `SubtitleRoundTrip.EscapedTwice`).
- The catalog shows the lines that were written, each in its place and under its name, if and
  only if no name is cut at or runs into a `$$$`, the first does not start and the last does not
  end with white space, and the url string falls into groups of which as many as there are lines
  hold an entry, before any that does not (`PlaylistRoundTrip.NamesReadBackIff`). Besides, each
  line is read from its own text if and only if names and texts both survive and every text
  holds an entry (`PlaylistRoundTrip.LinesReadBackIff`). An episode called `$$` is enough to lose
  a line (`PlaylistRoundTrip.LinesAreLost`).
- In the text that is handed to `encode_player_url_parameter` the encrypted url is the field that
  gets encoded if and only if the parser text holds no `url=` (`FormEncoding.FieldIsUrlIff`,
  `FormEncoding.NestedUrlIsTaken`).
- The id of an episode plays its payload if and only if this holds no bar and no dollar sign and
  is not changed by trimming, unless the id is empty (`PlaylistRoundTrip.PlayedTextIff`). The
  python form of a payload is then read as it was written if and only if parser, url and token
  hold no comma, trimming changes none of the four texts, parser and parse type are not empty,
  and the url is a media url (`PlaylistRoundTrip.PythonRoundTripIff`,
  `PlaylistRoundTrip.PythonFormIsLost`). A missing parse type is written as an empty one.
- A failed movie is offered another line only if its detail has a title and a year of the form
  19xx or 20xx, since the detail is compared with itself; without them nothing is offered, not
  even an episode of the same name (`RecoveryContent.LineOfferedIff`,
  `RecoveryContent.UnidentifiedMovieGetsNothing`, `RecoveryContent.YearDecides`).

Besides, the check of the intent number behind the last wait of `play` can never find a difference
(`PlaybackSafety.IntentCheckNeverFires`).

## Model

| member | source | states |
|---|---|---|
| JsonRoundTrip.RoundTripIff | fixtures/jvm/JsonCodec.java:13-254 | for every value of null, booleans, longs, decimals, strings, lists and insertion-ordered objects: parsing what is printed gives it back iff no decimal has scale zero or too large an exponent |
| JsonRoundTrip.PrintedValueParses | fixtures/jvm/JsonCodec.java:114-254 | wherever a printed value stands in a text, parsing there gives the value, decimals of scale zero as longs, and stops exactly behind it, or fails if a number is out of reach |
| JsonRoundTrip.PrintSameIff | fixtures/jvm/JsonCodec.java:33-96 | two values are printed alike iff they differ only in decimals of scale zero standing for longs |
| JsonRoundTrip.ParsedValueIsValid | fixtures/jvm/JsonCodec.java:114-239 | whatever is accepted from any text has longs and scales in range and distinct keys in every object |
| JsonRoundTrip.PrintedNormalForm | fixtures/jvm/JsonCodec.java:13-96 | for every accepted text, printing its value gives a text that is accepted iff every number is in reach, and is then printed again as it is |
| JsonRoundTrip.DecimalsAreLost | fixtures/jvm/JsonCodec.java:218-239 | two accepted texts whose values do not come back: one as a long, one not at all |
| JsonWriting.StringIsRead | fixtures/jvm/JsonCodec.java:173-210 | whatever form is chosen for each unit of a string, itself, its letter or four digits, it is read as its units and parsing stops behind it |
| JsonWriting.HexEscapeSpells | fixtures/jvm/JsonCodec.java:201-210 | `\u` with the four digits of a unit, each in either case, stands for that unit |
| JsonWriting.DocumentIsRead | fixtures/jvm/JsonCodec.java:106-199 | every value written with any white space between tokens, any spelling of its strings and repeated keys is read as what is meant |
| JsonWriting.PutCollapses | fixtures/jvm/JsonCodec.java:128-151 | a repeated key keeps its first place and takes its last value |
| JsonAccepted.ParseIff | fixtures/jvm/JsonCodec.java:106-239 | a text is accepted as a value iff it writes the value down in one of the listed ways, repeated keys collapsed |
| JsonPrinted.PrintIff | fixtures/jvm/JsonCodec.java:33-96 | a text is printed for a value iff it writes it without white space, with the shortest escapes allowed, small hexadecimal digits, and numbers as Java writes them, an exponent only where the scale is negative or the number below a millionth |
| JsonNumbers.PrintedDecimalParses | fixtures/jvm/JsonCodec.java:44-239 | what the number scanner and `BigDecimal` make of a printed decimal of non-zero scale standing anywhere: itself, or an error iff the printed exponent leaves the int range |
| JsonNumbers.PartsAreRead | fixtures/jvm/JsonCodec.java:218-239 | every number put together of sign, digits, point with digits and exponent is read as what these mean, or refused when digits are missing or a range is left |
| JsonNumbers.EveryDecimalIsRead | fixtures/jvm/JsonCodec.java:218-239 | every decimal, of any scale but the least, is read from some text |
| JsonLocality.LocalValue | fixtures/jvm/JsonCodec.java:114-254 | a value accepted inside a larger text is accepted with the same result when the piece stands alone |
| JsonLocality.LocalObject | fixtures/jvm/JsonCodec.java:128-151 | the same for objects |
| JsonHost.Stringify | fixtures/jvm/JsonCodec.java:33-37 | the buffer filled by the printer is the text of the value |
| JsonHost.Write | fixtures/jvm/JsonCodec.java:39-69 | writing appends exactly the value's text to the shared buffer |
| JsonHost.WriteString | fixtures/jvm/JsonCodec.java:71-96 | the loop appends the quoted, escaped string |
| JsonHost.Parser.Document | fixtures/jvm/JsonCodec.java:106-112 | result or error of a whole document, trailing content included |
| JsonHost.Parser.Value | fixtures/jvm/JsonCodec.java:114-126 | result, error offset and final index of the value parser |
| JsonHost.Parser.ObjectValue | fixtures/jvm/JsonCodec.java:128-151 | the same for objects, whose repeated keys keep their first place and last value |
| JsonHost.Parser.Array | fixtures/jvm/JsonCodec.java:153-171 | the same for lists |
| JsonHost.Parser.String | fixtures/jvm/JsonCodec.java:173-199 | the same for strings with their escapes |
| JsonHost.Parser.Unicode | fixtures/jvm/JsonCodec.java:201-210 | result and error of four hexadecimal digits, signs included as `Integer.parseInt` takes them; what each digit counts is `JsonWriting.HexEscapeSpells` |
| JsonHost.Parser.Number | fixtures/jvm/JsonCodec.java:218-239 | the same for numbers: longs, decimals, and errors when either is out of range |
| SearchDocument.Search | fixtures/jvm/DoubanJvmSpider.java:340-378 | the cut-out object, or which failure: no marker anywhere, no brace behind the first, no end of what opens there, or a piece that is no object |
| SearchDocument.ObjectEnd | fixtures/jvm/DoubanJvmSpider.java:351-376 | the loop with its three variables finds where depth 0 is first reached |
| SearchDocument.ScannerAgreesWithParser | fixtures/jvm/DoubanJvmSpider.java:351-376 | from the opening brace of any object the parser accepts, decimals included, the scanner stops exactly at its last brace |
| SearchDocument.AcceptedObjectIsFound | fixtures/jvm/DoubanJvmSpider.java:340-378 | prefix without the marker, marker, filler without `{`, accepted object, any rest: that object is returned |
| SearchDocument.ScanPrintedObject | fixtures/jvm/DoubanJvmSpider.java:351-376 | from the opening brace of any printed object the scanner reaches its closing brace one level up, even where the parser would reject a number |
| SearchDocument.PrintedObjectIsFound | fixtures/jvm/DoubanJvmSpider.java:340-378 | every printed object, whatever braces, quotes and backslashes its strings hold, is cut out whole and found iff its numbers can be read |
| SearchDocument.MarkerFoundAfterPrefix | fixtures/jvm/DoubanJvmSpider.java:341-345 | the marker is first found where it was put, as it overlaps no shifted copy of itself |
| PlaybackSafety.ReachableInv | renderer/src/tauri-renderer-api.ts:1151-1301 | the invariant of all interleavings of play, stop, cancel, time-outs and late answers |
| PlaybackSafety.AtMostOneLive | renderer/src/tauri-renderer-api.ts:1170-1176 | at most one attempt is not aborted and not done: the newest, stored under its lane, holding the newest intent |
| PlaybackSafety.OnlyNewestCommits | renderer/src/tauri-renderer-api.ts:1231-1235 | no late overwrite: whoever writes `proxySessionId` is live, the newest attempt, stored under its lane, with the newest intent, and finds no session there |
| PlaybackSafety.IntentCheckNeverFires | renderer/src/tauri-renderer-api.ts:1232-1234 | an unaborted attempt behind its last wait always holds the newest intent |
| PlaybackSafety.CommitsInIntentOrder | renderer/src/tauri-renderer-api.ts:1176-1235 | commits happen in increasing intent order, each attempt at most once |
| PlaybackSafety.StopClearsOnlyItsOwn | renderer/src/tauri-renderer-api.ts:1262-1301 | a stop that clears the runtime's session clears the one it captured, and has released it |
| PlaybackSafety.NothingLeftOpen | renderer/src/tauri-renderer-api.ts:1182-1260 | when all promises have settled a session is open iff it was committed and never released; so no uncommitted one is |
| PlaybackSafety.OpenSessionsAccountedFor | renderer/src/tauri-renderer-api.ts:1182-1203 | what is open at rest is the runtime's own session or one abandoned by a later attempt |
| PlaybackRest.ReachableCaused | renderer/src/tauri-renderer-api.ts:1151-1301 | the invariant behind the next three rows: in every reachable state no session is taken twice, and every release of a committed session has its cause |
| PlaybackRest.ReleasedIff | renderer/src/tauri-renderer-api.ts:1182-1301 | a committed session has been released iff its attempt was aborted, a stop that captured it has released it, or its taker has |
| PlaybackRest.LeftOpenIff | renderer/src/tauri-renderer-api.ts:1184-1203 | at rest a session the runtime does not name is open iff its taker abandoned it, its attempt was never aborted and no stop captured it |
| PlaybackRest.NamesClosedIff | renderer/src/tauri-renderer-api.ts:1273-1278 | at rest the session the runtime names is closed iff its attempt was aborted behind the commit or a stop captured it |
| PlaybackRest.PredecessorCanLeak | renderer/src/tauri-renderer-api.ts:1184-1203 | a run in which a taken session stays open |
| PlaybackRest.AbandonedAndClosed | renderer/src/tauri-renderer-api.ts:1184-1278 | a run in which an abandoned session is closed by the stop that had captured it |
| PlaybackRest.RuntimeCanNameClosedSession | renderer/src/tauri-renderer-api.ts:1518-1527 | a run in which a cancel behind the commit leaves the runtime naming a closed session |
| PlaybackRest.OvertakenStopLeavesName | renderer/src/tauri-renderer-api.ts:1262-1278 | a run in which an overtaken stop does |
| PlaybackProgress.RestIsReached | renderer/src/tauri-renderer-api.ts:1151-1301 | from every reachable state, rest can be reached without a further call |
| PlaybackProgress.ChangesAreBounded | renderer/src/tauri-renderer-api.ts:1151-1301 | however it goes on without a call, only so many events can change anything, and the bound shrinks with each |
| PlaybackProgress.StuckIsRest | renderer/src/tauri-renderer-api.ts:1151-1301 | a reachable state that nothing but a call can change is at rest |
| PlaybackSuccess.PromisingSucceeds | renderer/src/tauri-renderer-api.ts:1202-1249 | from every reachable state, with whatever session taken and with or without initialisation: every continuation of a promising attempt without calls, aborts, rejections and refusals that comes to rest ends in success |
| PlaybackSuccess.CanSucceedIff | renderer/src/tauri-renderer-api.ts:1151-1301 | the attempt under way can still come to rest in success without a call iff nothing has been refused to it and it has not given up |
| PlaybackSuccess.PlaySucceeds | renderer/src/tauri-renderer-api.ts:1170-1249 | a new play from any reachable state, QuickJS or not: where it comes to rest without further call, abort, rejection or refusal, its session is named, committed and open at both ends, and the one named before is closed |
| PlaybackSuccess.StopSucceeds | renderer/src/tauri-renderer-api.ts:1262-1301 | a stop that no further call follows ends, however things go on, with no session named and the one it found closed at both ends |
| PlaybackSuccess.EndedPlayNeverCommits | renderer/src/tauri-renderer-api.ts:1262-1301 | after a stop, a cancel, the time-out of the stored task or an abort of the newest attempt nothing commits until the next play |
| PlaybackSuccess.OnlyQuickJsStrays | renderer/src/tauri-renderer-api.ts:1252-1260 | in every reachable state only closes of QuickJS sessions have gone to the wrong engine |
| PlayerHost.Player.Play | renderer/src/tauri-renderer-api.ts:1170-1202 | `play` up to its first await is the machine's step and keeps the invariant; the new attempt takes the session and no earlier one is live |
| PlayerHost.Player.Continue | renderer/src/tauri-renderer-api.ts:1202-1249 | `play` from one await to the next is the machine's step and keeps the invariant; the session field stays or is set by a live attempt with the newest intent that finds it empty; that it gets there is `PlaybackSuccess.PromisingSucceeds` |
| PlayerHost.Player.ThenCallback | renderer/src/tauri-renderer-api.ts:1213-1231 | the two `then` callbacks keep the invariant, and a result that arrives for an aborted attempt has been closed at both ends |
| PlayerHost.Player.StopPlayer | renderer/src/tauri-renderer-api.ts:1262-1273 | `stopPlayer` up to its first await is the machine's step, keeps the invariant, and nothing plays afterwards |
| PlayerHost.Player.ContinueStop | renderer/src/tauri-renderer-api.ts:1272-1278 | its finally block is the machine's steps, keeps the invariant, and clears no session but the one it captured |
| PlayerHost.Player.CancelFallbackCall | renderer/src/tauri-renderer-api.ts:1518-1522 | cancelling is the machine's step and keeps the invariant; nothing plays afterwards and the session field stays |
| PlayerHost.Player.ReleasePlaybackSession | renderer/src/tauri-renderer-api.ts:1252-1260 | a release whose engine is looked up closes the proxy, and the source at its own engine but for a QuickJS session whose engine entry is gone |
| RequestTask.WaitGivesValueIff | renderer/src/request-task.ts:34-43 | a wait gives a value iff its promise was fulfilled with it while the wait was undecided and the signal not aborted |
| RequestTask.NoValueAfterAbort | renderer/src/request-task.ts:29-43 | once cancelled, no wait turns into a value, however its promise ends |
| RequestTask.SettledValueOutlivesAbort | renderer/src/request-task.ts:34-43 | a value settled before the abort stays, which is why callers check again |
| RequestTask.AbortedIff | renderer/src/request-task.ts:8-32 | the signal has aborted iff the parent's had, the task was cancelled, or its time was up or its parent aborted before it was disposed of |
| RequestTask.Task.AbortNow | renderer/src/request-task.ts:31-38 | aborting rejects every undecided wait, once |
| RequestTask.Task.BeginWait | renderer/src/request-task.ts:34-43 | a wait on an aborted signal is rejected at once |
| TaskLanes.LiveTaskIsStored | renderer/src/tauri-renderer-api.ts:167-193 | every unfinished, uncancelled task is the one stored under its lane |
| TaskLanes.CancelAllReachesEverything | renderer/src/tauri-renderer-api.ts:215-218 | cancelling all stored tasks leaves no live task |
| TaskLanes.AtMostOneLiveOffPlayback | renderer/src/tauri-renderer-api.ts:167-173 | two live tasks are a search and a detail started during it, or one is a playback |
| TaskLanes.StartSurvivors | renderer/src/tauri-renderer-api.ts:167-173 | which live task outlives the start of another: a playback anything off its lane, a search the detail started from it, and no other |
| TaskLanes.TaskTable.StartTask | renderer/src/tauri-renderer-api.ts:167-173 | the loop over the stored tasks cancels the obsolete ones; the only older tasks still live are a playback, or a search behind a detail |
| TaskLanes.TaskTable.CancelObsolete | renderer/src/tauri-renderer-api.ts:167-171 | the loop in any order of the lanes cancels exactly the tasks stored under obsolete ones |
| TaskLanes.TaskTable.EndTask | renderer/src/tauri-renderer-api.ts:189-192 | a finished task is not live and leaves its lane only if it is still stored there; the table stays valid |
| PlayerSync.AtMostOneRecovery | renderer/src/tauri-renderer-api.ts:1356-1382 | at most one recovery is active, whatever reports arrive |
| PlayerSync.ErrorsShareRecovery | renderer/src/tauri-renderer-api.ts:1358-1365 | reports during a recovery join it, and a new one starts iff an error comes while none is active |
| PlayerSync.EndKeepsSuccessor | renderer/src/tauri-renderer-api.ts:1375-1381 | the end of an earlier recovery does not clear its successor |
| PlayerSync.Synchroniser.SyncPlayer | renderer/src/tauri-renderer-api.ts:1356-1370 | a report is ignored iff it is of another session, joins iff it is not and a recovery is active, and starts one iff it is an error of this session and none is active; then it is the only active one, and otherwise nothing changes |
| PlayerSync.Synchroniser.EndRecovery | renderer/src/tauri-renderer-api.ts:1375-1381 | the end of one recovery leaves any other active one stored |
| SearchResults.EachSiteProbedOnce | renderer/src/tauri-renderer-api.ts:936-945 | the sites probed so far are a prefix of the list, each once; all of it when the search completes |
| SearchResults.AtMostFourRunning | renderer/src/tauri-renderer-api.ts:958-959 | never more than four sites are under way, and these are the ones shown as running |
| SearchResults.FourCanRun | renderer/src/tauri-renderer-api.ts:958-959 | as many sites as there are, up to four, can be under way at once |
| SearchResults.FinalStatuses | renderer/src/tauri-renderer-api.ts:942-955 | a completed search shows for each site whether it was unsupported, failed, found nothing or found something |
| SearchResults.CancelledStatuses | renderer/src/tauri-renderer-api.ts:961-972 | a cancelled search that is still current shows no site as queued or running: these are cancelled, the others as they were |
| SearchResults.ReplacedStatuses | renderer/src/tauri-renderer-api.ts:961-972 | a search that was replaced leaves the statuses as they are |
| SearchResults.CancelledNeverPublishes | renderer/src/tauri-renderer-api.ts:929-934 | no list is published after the cancel |
| SearchResults.FirstReturnEnds | renderer/src/tauri-renderer-api.ts:945-972 | after a cancel the first probe that returns ends the search, whatever the other workers do |
| SearchResults.ChangesArePublished | renderer/src/tauri-renderer-api.ts:929-960 | every change of what is shown of a site, and the end of the search, is published at once unless cancelled |
| SearchResults.SameListForEverySchedule | renderer/src/tauri-renderer-api.ts:929-962 | with distinct keys every schedule that completes ends with the sites' items in site order |
| SearchResults.PublishedListsGrow | renderer/src/tauri-renderer-api.ts:929-956 | each published list is an ordered subsequence of every later one |
| SearchResults.ScheduleIndependentIffKeysDistinct | renderer/src/tauri-renderer-api.ts:923-956 | the final list is the same for all schedules and answers iff no two sites share a key |
| SearchResults.TwoSchedules | renderer/src/tauri-renderer-api.ts:936-956 | two schedules of the same search with different lists, for any list with a shared key |
| SearchProgress.EndIsReached | renderer/src/tauri-renderer-api.ts:936-972 | from every reachable state an end is reached without a cancel, and it is completion if there was none |
| SearchProgress.EventsAreBounded | renderer/src/tauri-renderer-api.ts:936-972 | however a search goes on without a cancel, only so many events can happen |
| SearchProgress.SearchIsBounded | renderer/src/tauri-renderer-api.ts:936-962 | a whole search takes at most two events for each site, one for each worker and one for the end |
| SearchHost.SearchRun.TakeSite | renderer/src/tauri-renderer-api.ts:936-944 | a worker's turn up to the probe is the machine's step and keeps its invariant, with the shown list in step with the log |
| SearchHost.SearchRun.StoreResult | renderer/src/tauri-renderer-api.ts:945-956 | its turn behind the probe keeps the invariant and, unless cancelled, shows the status of the answer |
| SearchHost.SearchRun.AllDone | renderer/src/tauri-renderer-api.ts:958-972 | when all workers have returned the search completes, unless it was cancelled, which marks the sources only while the search is the current one |
| SearchHost.SearchRun.Publish | renderer/src/tauri-renderer-api.ts:929-934 | the published list is the concatenation of the stored results in site order |
| SubtitleTime.TimestampRoundTrip | src/subtitles.ts:442-476 | printed time stamps below a thousand hours read back as the same milliseconds, in both formats |
| SubtitleTime.TimestampReadsBackIff | src/subtitles.ts:442-476 | later times are printed but are no time stamps |
| SubtitleTime.StampIsRead | src/subtitles.ts:442-456 | `hh:mm:ss,mmm`, with a comma or a point, is read as its milliseconds in both formats, below a thousand hours |
| SubtitleTime.TenthsAreRead | src/subtitles.ts:442-456 | one digit is tenths |
| SubtitleTime.HundredthsAreRead | src/subtitles.ts:442-456 | two digits behind point or comma are hundredths of a second |
| SubtitleTime.TimeIsPrinted | src/subtitles.ts:457-476 | a time is printed as its hours, minutes, seconds and milliseconds |
| SubtitleTime.SrtTwoFieldIff | src/subtitles.ts:447-455 | an SRT time stamp of two fields means what it says iff its minutes are below 60 and its seconds are zero |
| SubtitleTime.SrtLosesSeconds | src/subtitles.ts:447-455 | five seconds are read as none, and seventy-five minutes are refused |
| SubtitleTime.VttTwoFieldIff | src/subtitles.ts:447-455 | a WebVTT time stamp of two fields is accepted iff its minutes are below 60, whatever its seconds are, and one of three fields iff both are |
| SubtitleTime.VttTakesManySeconds | src/subtitles.ts:447-455 | seventy-five seconds are accepted, seventy-five minutes are not |
| SubtitleTime.TimestampInRange | src/subtitles.ts:442-456 | every accepted time stamp, of both formats, lies in the range that can be printed and read back |
| SubtitleTime.TimingLineMatches | src/subtitles.ts:429-440 | a line `a --> b`, with or without a setting, is cut at its arrow |
| SubtitleAccepted.MatchIff | src/subtitles.ts:442-446 | which texts have the form of a time stamp, and what their fields are |
| SubtitleAccepted.TimingIff | src/subtitles.ts:429-440 | a line is accepted as a timing iff it is two time stamps, the second later, around an arrow with white space on both sides, and which times it gives |
| Subtitles.ReadWebVtt | src/subtitles.ts:196-234 | the reading loop: cues, or which error; what they are is told by `SubtitleFiles.WebVttMeans` |
| Subtitles.ReadSrt | src/subtitles.ts:236-256 | the reading loop over the blocks: cues, or which error; what they are is told by `SubtitleFiles.SrtMeans` |
| SrtReading.SrtIsRead | src/subtitles.ts:236-256 | the same of SRT, with a comma or a point in the times |
| VttReading.VttIsRead | src/subtitles.ts:196-234 | for every list of comments, styles, regions and cues, with or without ids, hours and settings, gaps of any length, any kind of line break, and a byte order mark or none: the cues are read with their ids, times and escaped texts |
| SubtitleFiles.WebVttMeans | src/subtitles.ts:196-234 | for any text: refused for its header, or for a block that is no cue, and which; otherwise the cues are those of its blocks, in order |
| SubtitleFiles.WebVttAcceptedIff | src/subtitles.ts:196-234 | a text is accepted iff it has the header and every block that begins with no keyword is a cue |
| SubtitleFiles.SrtMeans | src/subtitles.ts:236-256 | for any text: its parts between empty lines are left out without an arrow, refused when the first line with one is no timing, and else cues, with id, times and whole escaped text, in order |
| Subtitles.SplitAssFields | src/subtitles.ts:478-493 | the fields before the text hold no comma, and joined again they give the line back |
| SubtitleExact.WebVttRoundTripIff | src/subtitles.ts:196-302 | for every list of cues: what is printed reads back in order, with ids, times and escaped texts, iff every cue has an id that is read as one, times in range and no blank text line |
| SubtitleExact.SrtToWebVttIff | src/subtitles.ts:181-302 | for every accepted SRT text: its conversion reads back as its cues iff no id is a WebVTT keyword and no text has a blank line |
| SubtitleExact.SrtKeywordIsLost | src/subtitles.ts:181-302 | an SRT text with the id `NOTE` that is read, and whose conversion does not read back |
| SubtitleExact.KeywordIdIsLost | src/subtitles.ts:196-302 | a cue with the id `NOTE` is not read back |
| SubtitleExact.EveryReadCueOk | src/subtitles.ts:196-234 | every cue of any WebVTT text that is read has an id, times and a text that could have been printed |
| SubtitleExact.CueIsPrinted | src/subtitles.ts:293-302 | a cue is printed as id or number, times with the setting that moves it to the top, and text, line by line |
| SubtitleRoundTrip.ReadBackAllAt | src/subtitles.ts:196-302 | cue `k` of the result is cue `k` of the input, so none is lost or added |
| SubtitleRoundTrip.SrtCuesAre | src/subtitles.ts:236-256 | every cue read from any SRT text has a clean id and times the printer can round trip |
| SubtitleRoundTrip.SanitizeUnchangedIff | src/subtitles.ts:382-390 | text is read unchanged iff it holds none of the five characters and no carriage return |
| SubtitleRoundTrip.EscapedTwice | src/subtitles.ts:382-390 | a text that is changed by being read, and again by being read once more |
| SubtitleRoundTrip.SanitizeDecodes | src/subtitles.ts:382-390 | decoding the entities gives the text back, up to the kind of line break |
| SubtitleRoundTrip.SanitizeIsEscape | src/subtitles.ts:382-390 | the chain of five replacements is one escaping of each character: no entity is escaped by a later link |
| BusinessData.SanitizeChangesIff | src-tauri/src/business_data.rs:313-337 | sanitising changes a value iff it holds a credential at some depth, and is idempotent; that it removes no more is `BusinessRules.SanitizeRedacts` |
| BusinessRules.SanitizeRedacts | src-tauri/src/business_data.rs:313-337 | what stands behind a secret name is gone, at any depth; along every other path there is what was there before, lists with all their items, and nothing is added |
| BusinessRules.ValidateIff | src-tauri/src/business_data.rs:340-420 | a value passes iff it is acceptable for its entity: which fields a download, a local file and a player session may and must have, names in any case |
| BusinessRules.ErrorIs | src-tauri/src/business_data.rs:340-420 | the error of a refused value tells what is wrong with it |
| BusinessRules.KeyOkIff | src-tauri/src/business_data.rs:304-311 | a key is usable iff it holds a character that is no white space and at most 256 bytes |
| BusinessData.SanitizeKeepsValid | src-tauri/src/business_data.rs:313-420 | a valid value stays valid when it is sanitised |
| BusinessData.UpsertStores | src-tauri/src/business_data.rs:87-115 | a write keeps every record valid, free of credentials and under usable keys |
| BusinessBackup.EveryRunStores | src-tauri/src/business_data.rs:87-285 | so does every run of writes, deletions and restores, failed ones included |
| BusinessBackup.EveryRowIsSound | src-tauri/src/business_data.rs:87-285 | after every run each record is acceptable for its entity and has nothing behind a secret name |
| BusinessBackup.BackupRoundTripIff | src-tauri/src/business_data.rs:148-285 | a backup restores into an empty table as the same records iff no entity name holds a slash |
| BusinessBackup.SlashIsLost | src-tauri/src/business_data.rs:148-285 | a table made by one write that its backup gives back neither to an empty table nor to itself |
| BusinessBackup.BackupOntoSelfIff | src-tauri/src/business_data.rs:245-285 | restoring a backup onto its own table succeeds and changes nothing iff each of its fields names a row, by its first slash, that holds its value; in particular when no entity name holds a slash |
| BusinessBackup.RestoreChangesNothingIff | src-tauri/src/business_data.rs:245-285 | any restore succeeds and changes nothing iff every field can be written and its value is already there |
| BusinessBackup.RestoreSucceedsIff | src-tauri/src/business_data.rs:245-285 | a restore succeeds iff every field could be written alone |
| BusinessBackup.RestoreContents | src-tauri/src/business_data.rs:245-285 | what a restore that succeeds leaves under each key |
| BusinessBackup.RestoredRows | src-tauri/src/business_data.rs:245-285 | after a restore that succeeds each field stands in its row, as it was but for what is behind secret names, known rows keep their source, and all other rows stay |
| BusinessBackup.RestorableIff | src-tauri/src/business_data.rs:245-285 | a field can be restored iff it is named by a usable entity without slash and a usable id and is acceptable for the entity |
| BusinessBackup.RestoreStops | src-tauri/src/business_data.rs:245-285 | a restore that fails has written the fields before the first that cannot be written, and the error is that field's |
| BusinessBackup.Database.UpsertRecord | src-tauri/src/business_data.rs:87-115 | a write succeeds iff the keys are usable and the value is acceptable; it then stores the source and the value without what stands behind secret names and otherwise as it was; no other row changes, none if it fails, and which error it then gives |
| BusinessBackup.Database.RemoveRecord | src-tauri/src/business_data.rs:185-207 | a deletion succeeds iff the keys are usable, else which error; the record is gone in every case and no other row changes |
| BusinessBackup.Database.BackUp | src-tauri/src/business_data.rs:148-183 | the loop over the ordered rows fills the backup object |
| BusinessBackup.Database.RestoreBackup | src-tauri/src/business_data.rs:245-285 | the loop over the fields writes until the first error, keeping what was written before; each restored row holds its field but for secrets, an error has a field that is to blame, and the table stays valid |
| FavoritesSafety.EveryRunKeeps | src-tauri/src/business_features.rs:40-131 | every run of actions keeps: groups exist, the default group with any favourite, ids equal keys, no title twice |
| FavoritesSnapshot.CountsAddUp | src-tauri/src/business_features.rs:208-248 | in every reachable store the groups' counts add up to the number of favourites |
| FavoritesSnapshot.ReorderListsRequestIff | src-tauri/src/business_features.rs:351-385 | after an accepted reorder the snapshot lists the group as requested iff the ids are distinct |
| FavoritesSnapshot.RepeatedIdAccepted | src-tauri/src/business_features.rs:351-385 | a reachable store and an accepted reorder that names one id twice |
| FavoritesSnapshot.ReorderLeavesOthers | src-tauri/src/business_features.rs:351-385 | a reorder changes positions only, and none in another group |
| FavoritesSnapshot.ReorderGroupsListsRequest | src-tauri/src/business_features.rs:482-510 | after a successful group reorder the snapshot's groups are exactly the requested list |
| FavoritesSnapshot.SucceedsIff | src-tauri/src/business_features.rs:40-131 | on every reachable store an action succeeds iff the request is allowed: no write inside a transaction fails behind an accepted request |
| FavoritesSnapshot.ReorderSucceedsIff | src-tauri/src/business_features.rs:351-385 | a reorder succeeds iff the group is named and the ids list its favourites, as many and each one there |
| FavoritesSnapshot.ReorderGroupsSucceedsIff | src-tauri/src/business_features.rs:482-510 | the same for the groups |
| FavoritesSnapshot.DeleteGroupSucceedsIff | src-tauri/src/business_features.rs:437-480 | a group is deleted iff it is not the default one, its id is usable and a disposition is given when it holds favourites |
| FavoritesSnapshot.DefaultGroupStays | src-tauri/src/business_features.rs:437-480 | the default group is never deleted |
| FavoritesSnapshot.DeleteGroupDisposes | src-tauri/src/business_features.rs:437-480 | deleting a group deletes its favourites or moves them all to the default group, and leaves the others |
| FavoritesSnapshot.ToggleTwiceIff | src-tauri/src/business_features.rs:299-349 | toggling on and off restores the favourites iff the id given was free |
| FavoritesSnapshot.UsedIdAccepted | src-tauri/src/business_features.rs:299-349 | a reachable store on which two toggles with an id in use lose a favourite |
| FavoritesEffects.TextIs | src-tauri/src/business_features.rs:697-710 | a text of a request counts without the white space at its ends, and only if anything is left |
| FavoritesEffects.NextOrderIs | src-tauri/src/business_features.rs:317-323 | the position of a new favourite: 0 in an empty group, else one behind the last |
| FavoritesEffects.AddedIsLast | src-tauri/src/business_features.rs:299-349 | a title that becomes a favourite is listed behind all others of the default group, whatever was deleted before |
| FavoritesEffects.ErrorIs | src-tauri/src/business_features.rs:40-131 | an action that fails gives the error of its first unmet requirement |
| FavoritesEffects.DeleteGroupLeaves | src-tauri/src/business_features.rs:437-480 | deleting a group touches no other group and makes no favourite |
| FavoritesHost.Feature.ToggleFavorite | src-tauri/src/business_features.rs:299-349 | a toggle succeeds iff it is allowed: a title that was none becomes a favourite, under the given id, in the default group behind all others and added now; one that was loses its row; no other favourite changes, a failure changes none and gives its error; the default group exists afterwards, and the invariant of the store is kept |
| FavoritesHost.Feature.DeleteFavorite | src-tauri/src/business_features.rs:109-112 | the favourite is gone, no other changes, and the invariant of the store is kept |
| FavoritesHost.Feature.MoveFavorite | src-tauri/src/business_features.rs:113-126 | a move succeeds iff the favourite and the group exist; the group of that favourite alone changes |
| FavoritesHost.Feature.ReorderFavorites | src-tauri/src/business_features.rs:351-385 | for any writes that the storage refuses: the transaction on a working copy succeeds iff the request is allowed and nothing is refused, and leaves the table as it was if not |
| FavoritesHost.Feature.AddGroup | src-tauri/src/business_features.rs:387-417 | a creation succeeds iff it is allowed, else which error; the group then has the id, the name and the time, stands behind all others, and no other changes |
| FavoritesHost.Feature.NameGroup | src-tauri/src/business_features.rs:419-435 | renaming succeeds iff the group is there, not the default one, and a name is given, else which error; the name of that group alone changes |
| FavoritesHost.Feature.RemoveGroup | src-tauri/src/business_features.rs:437-480 | for any refused writes: the group is emptied and removed, or both tables are as they were, and which of the two when |
| FavoritesHost.Feature.OrderGroups | src-tauri/src/business_features.rs:482-510 | for any refused writes: all positions are written or none, and which of the two when |
| FavoritesHost.Feature.MakeDefaultGroup | src-tauri/src/business_features.rs:537-549 | the default group exists afterwards, a new one with its name at position 0, no other group changes, and it stays as it is if it existed |
| FavoritesHost.Feature.SnapshotItems | src-tauri/src/business_features.rs:208-214 | the items are the favourites by group, position and newest first |
| FavoritesHost.Feature.SnapshotGroups | src-tauri/src/business_features.rs:215-248 | the groups by position, age and id, each with the number of its items, which together count every item |
| SortedLists.AscendingUnique | src-tauri/src/business_features.rs:209-221 | a strict order leaves one way to list the same records |
| PlaylistWire.UniqueLineName | src-tauri/src/app_get.rs:1448-1460 | the loop ends within as many suffixes as there are names, with the first name not in use |
| PlaylistWire.TakenBound | src-tauri/src/app_get.rs:1448-1460 | the pigeonhole: as many candidates in use need as many names |
| PlaylistWire.AppQiNamesDistinct | src-tauri/src/app_get.rs:705-768 | the line names of the AppQi protocol are pairwise distinct |
| PlaylistWire.LineUrls | src-tauri/src/app_get.rs:724-759 | the entries of one playlist, or the failed encryption: of each playable episode, in order, the first of its names, what plays it (the first address of three, or parser, encrypted url and token), the title and its number |
| PlaylistWire.MapDetail | src-tauri/src/app_get.rs:703-774 | the two strings are those of the playlists with a playable episode, in order, each named by the first of show, name and parse or by its number, absent when there is none |
| PlaylistWire.AddressIff | src-tauri/src/app_get.rs:724-745 | which address is taken: `parse_api_url` as a direct address, else the episode's url, else the former as any media address |
| PlaylistWire.LinesAre | src-tauri/src/app_get.rs:703-774 | what is kept of the playlists is, name by name and text by text, what their fields say |
| PlaylistWire.DetailFailsIff | src-tauri/src/app_get.rs:738-757 | a detail fails iff one of its episodes must be encrypted and cannot be |
| EpisodeOrder.SortedIff | renderer/src/tauri-renderer-api.ts:2683-2700 | the sorted list is the one permutation that puts numbered episodes first, by number, version and position, with index equal to position |
| EpisodeOrder.SortTwice | renderer/src/tauri-renderer-api.ts:2683-2700 | sorting a second time changes nothing |
| PlaybackCatalog.PlaybackCatalog | renderer/src/tauri-renderer-api.ts:2653-2681 | the loop's catalog: line indexes ascend, no line is empty, every episode's index is its position, and a line is HLS iff an episode of it names an `.m3u8` file, in any case, at the end of the address or of its path |
| PlaybackCatalog.CatalogIsValid | renderer/src/tauri-renderer-api.ts:2653-2681 | the same of every catalog, whatever the two strings are |
| PlaybackCatalog.HlsIff | renderer/src/tauri-renderer-api.ts:2675 | of every catalog: a line is HLS iff an episode of it names an `.m3u8` file, in any case, at the end of the address or of its path |
| CatalogReading.CatalogMeans | renderer/src/tauri-renderer-api.ts:2653-2681 | for any two strings: one line for each text between `$$$` that has an episode, with its number, the name at its place or a numbered one, and its episodes in order; none iff a string is blank or no text has one |
| CatalogReading.EntryIff | renderer/src/tauri-renderer-api.ts:2664-2671 | an entry is read as an episode iff it is a caption, `$` and what plays it, or the latter alone and called by its number; in the plain form that ends at the first bar |
| Strings.SplitOnJoinIff | renderer/src/tauri-renderer-api.ts:2658-2659 | splitting undoes joining iff no part but the last holds or runs into the separator and the last does not hold it |
| PlaylistRoundTrip.CatalogReadsBack | renderer/src/tauri-renderer-api.ts:2653-2681 | for details free of delimiters the catalog has one line for each kept playlist, in order, same name, its episodes the kept ones, sorted, each under its payload |
| PlaylistRoundTrip.NamesReadBackIff | renderer/src/tauri-renderer-api.ts:2653-2681 | for any detail with kept lines: the catalog has just these, each in its place and under its name, iff no name is cut at or runs into a `$$$`, the ends are not trimmed, and just the first groups of the url string, as many as there are lines, hold an entry |
| PlaylistRoundTrip.LinesReadBackIff | renderer/src/tauri-renderer-api.ts:2653-2681 | besides, every line is read from its own text iff names and texts survive joining, trimming and splitting and every text holds an entry |
| PlaylistRoundTrip.LinesAreLost | renderer/src/tauri-renderer-api.ts:2653-2681 | two details whose lines are not shown: a name with `$$$`, and an episode called `$$` |
| PlaylistRoundTrip.SpacesDiffer | src-tauri/src/app_get.rs:785-790 | the two sides trim alike but for U+0085, which is white space to the one, and U+FEFF, which is to the other |
| PlaylistRoundTrip.PlayedTextIff | src-tauri/src/app_get.rs:785-797 | what is played of an episode id is its payload iff this holds no bar and no dollar sign, trimming leaves it, and the id is not empty |
| PlaylistRoundTrip.PythonRoundTripIff | src-tauri/src/app_get.rs:876-893 | the python form is read back as written iff parser, url and token hold no comma, trimming changes nothing, parser and parse type are not empty and the url is a media url |
| PlaylistRoundTrip.PythonFormIsLost | src-tauri/src/app_get.rs:876-893 | a parser with a comma, and an empty parse type: written, and not read back |
| FormEncoding.AppendFormComponent | src-tauri/src/app_get.rs:1319-1334 | the loop appends the encoded bytes |
| FormEncoding.DecodeEncode | src-tauri/src/app_get.rs:1319-1334 | percent-encoding is undone byte for byte, for all bytes |
| FormEncoding.EncodeSafe | src-tauri/src/app_get.rs:1322-1332 | an encoded component holds no `&`, no `=` and nothing outside the safe bytes |
| FormEncoding.EncodeIff | src-tauri/src/app_get.rs:1319-1334 | the encoding of bytes is the one text that decodes to them and escapes only what has to be, with capital digits and `+` for a space |
| FormEncoding.EncodeFormBody | src-tauri/src/app_get.rs:1296-1317 | form parsing the body gives exactly its names, each with what is sent for its value: texts and digits as they are, `true`, `false`, or nothing for null; it fails iff the body is no object or holds a nested value |
| FormEncoding.ParseSerialize | src-tauri/src/app_get.rs:1296-1317 | form parsing undoes serialising, whatever bytes names and values hold |
| FormEncoding.EncodePlayerUrlParameter | src-tauri/src/app_get.rs:914-943 | only the url value changes, decoding gives it back; it is refused for a missing url when there is no `url=` or nothing before the token, for a missing token when none follows |
| FormEncoding.FieldIsUrlIff | src-tauri/src/app_get.rs:914-925 | of a query made of parser, encrypted url and token, the field that is encoded is the encrypted url iff the parser holds no `url=` |
| PlayerField.EncryptedUrlIsTaken | src-tauri/src/app_get.rs:746-757 | of the text written for an episode that needs encryption, as UTF-8: what the encryption gave, if not empty and without `&`, stands in it, and is the field that the request path takes iff the parser holds no `url=` |
| PlayerField.EncryptedUrlIsEncoded | src-tauri/src/app_get.rs:914-943 | when it holds none, what is sent is that text with the encrypted url alone replaced, by a field that decodes to it |
| FormEncoding.NestedUrlIsTaken | src-tauri/src/app_get.rs:914-925 | a parser that ends in `?url=`, for which another field is encoded |
| Watchdog.ReportIff | renderer/src/playback-recovery.ts:54-66 | what is reported at a check, told by the history alone: exactly when 15 s without any decoded frame, or 8 s without an advance, have been wanted |
| Watchdog.AtMostOneReport | renderer/src/playback-recovery.ts:54-66 | one watchdog reports at most once |
| Watchdog.SilenceIsReported | renderer/src/playback-recovery.ts:54-66 | checks at most a gap apart report a silent playback at most that gap after its time is up |
| Watchdog.PlaybackProgressWatchdog.OnProgress | renderer/src/playback-recovery.ts:54-58 | after any history of calls the fields tell whether a frame has been decoded, and the progress time moves iff a frame is decoded or the position has moved by more than the jitter since the last one |
| Watchdog.PlaybackProgressWatchdog.OnCheck | renderer/src/playback-recovery.ts:59-66 | after any history of calls that is in time order, which report a check gives, told by that history alone |
| Recovery.RecoverySelection | renderer/src/playback-recovery.ts:24-44 | the loop over the lines and its early returns give the selection |
| Recovery.ChooseIff | renderer/src/playback-recovery.ts:30-35 | the first line with any match decides, and only by a single match |
| Recovery.RecoveredIff | renderer/src/playback-recovery.ts:24-44 | a searched line is continued with an episode iff it is the only one with the number of the wanted one, or, if that has no number, with its normalised name, or its sole episode by the movie rule |
| Recovery.CandidatesResolve | renderer/src/tauri-renderer-api.ts:1577-1621 | every candidate has its own id, the names of its line and episode as caption and its line number as key, and the requests resolve it to an existing episode of another line, its only match |
| Recovery.EveryOfferPlays | renderer/src/tauri-renderer-api.ts:1577-1636 | for the catalog read from any two playlist strings, whatever is offered has its own id, is never unavailable, and names an episode that playing finds |
| Recovery.OfferedIff | renderer/src/tauri-renderer-api.ts:1583-1610 | a line is offered iff it is another line that can be continued without doubt |
| Recovery.IdsInjective | renderer/src/tauri-renderer-api.ts:1601 | a candidate id determines line and episode |
| RecoveryContent.SameContentIff | renderer/src/playback-recovery.ts:14-22 | two details are the same content iff both have a title and a 19xx or 20xx year and they agree in title, year and season; so a detail is the same as itself only then |
| RecoveryContent.YearLikeIff | renderer/src/playback-recovery.ts:17 | a year counts iff it is one of four digits from 1900 to 2099 |
| RecoveryContent.NamesMovieIff | renderer/src/tauri-renderer-api.ts:1587-1596 | a type names a movie iff it holds 电影 or, in any case, movie |
| RecoveryContent.LineOfferedIff | renderer/src/tauri-renderer-api.ts:1587-1600 | a line is offered iff it can be continued, by sole episodes only when the type says movie, and a movie has a title and a year |
| RecoveryContent.UnidentifiedMovieGetsNothing | renderer/src/tauri-renderer-api.ts:1591-1600 | a movie without a title or a year is offered nothing, from any catalog |
| RecoveryContent.YearDecides | renderer/src/tauri-renderer-api.ts:1591-1600 | a catalog with two lines of the same episode: nothing for a movie without a year, the other line when it is not called a movie |
| Recovery.Fallback.Begin | renderer/src/tauri-renderer-api.ts:1577-1621 | the loop's candidates and requests; what is kept of the catalog lets every later attempt on an offered candidate play |
| Recovery.Fallback.Attempt | renderer/src/tauri-renderer-api.ts:1623-1636 | for a valid catalog, an attempt on any offered candidate is accepted and names an episode of another line that playing finds; it is refused iff the id is not among the requests |

## Left out

- PlaybackSafety.ReachableInv: one runtime is fixed, so loading a configuration and the rollback of a source switch, which replace or null the session, are not steps of the machine.
- PlaybackSafety.NothingLeftOpen: a request that is rejected is taken to leave nothing open at the backend, and every close that is sent is taken to be carried out once; the statement is about states in which every call has returned and every close has been carried out.
- PlaybackProgress.RestIsReached: that the backend answers and that waits end is an assumption about the environment; what is proved is that nothing else is needed.
- PlayerHost.Player.Continue: the awaits between the release of the old session and the opening of the new one are one phase, and player fields that do not take part in ownership are not modelled.
- JsonRoundTrip.RoundTripIff: numbers are longs and `BigDecimal`s, whose reading and printing follow their documentation; other Java numbers and objects that a caller may hand to the printer are not modelled, nor is the greatest length of a Java string.
- JsonRoundTrip.PrintSameIff: one of the values is one whose numbers can be read.
- SubtitleExact.WebVttRoundTripIff: times are whole milliseconds, and strings are sequences of code points, so lone surrogates do not occur.
- Subtitles.SplitAssFields: the rest of the ASS reader (override tags, encodings, text scoring) is heuristic and not modelled.
- BusinessBackup.BackupRoundTripIff: `updated_at` and the text form of the stored JSON are not modelled, and its numbers are whole; whether a path is absolute is a parameter.
- FavoritesHost.Feature.ToggleFavorite: refusals of the storage itself are modelled inside the transactions only (reordering, deleting a group); elsewhere a write that is checked goes through.
- FavoritesSafety.EveryRunKeeps: display fields, `updatedAt`, `sourceAvailable` and `recentWatchedAt`, the history and follow features, and the overflow of 64-bit positions are not modelled; new ids are parameters.
- PlaylistWire.MapDetail: JSON texts come in as strings, an empty one standing for a missing one; url parsing and AES are functions given in the configuration.
- PlaylistRoundTrip.CatalogReadsBack: both strings are taken to reach the renderer as they were written.
- EpisodeOrder.SortedIff: the regular expressions that read number and version off a name are functions given as parameters; the statement holds for all of them.
- Recovery.CandidatesResolve: the number read off a name and text normalisation are parameters, and so is what two details have in common, which `RecoveryContent` models but for the season that a title names; the fallback controller behind `requestPlaybackFallback` is not part of this model.
- FormEncoding.EncodeFormBody: numbers come in as their digits.
- Watchdog.ReportIff: times and positions are real numbers; not-a-number and rounding do not occur.
- SearchResults.SameListForEverySchedule: the stable sort that puts the selected site first, and the fields added to each item, are not modelled.
- TaskLanes.LiveTaskIsStored: time-outs and finished work are events that may come at any time.
- HTTP, proxies, retries, TLS, AES and base64, text decoding and regular-expression engines are libraries and are not modelled.
- Push playback, local files, casting, downloads, the detached window and the persistence of view state are not modelled.
- Hashed ids are not taken as identities, since they may collide.
