# mod_googlemeet core, modelled in Dafny

This project models the core of the Moodle activity module `mod_googlemeet`. The module links a Moodle course to Google Meet sessions and their Drive recordings, and it can ask Google Gemini for an analysis of each recording.

The model covers these parts:

- **AI analysis records and their state machine** (`ai_service.php`, the two scheduled tasks). Each recording has at most one analysis row, whose status moves between `pending`, `processing`, `completed` and `failed`. Generation is guarded by a `regenerate` flag, and an adhoc job is queued once per (recording, analysis) pair. `process_pending` handles the oldest pending rows first, up to a limit.
- **The video analysis task** (`process_video_analysis.php`). It extracts the Drive file id with four ordered patterns. The download is checked for free disk space, a minimum size of 1000 bytes, an HTML error page and a 2 GiB limit. The MIME type falls back from sniffing to an extension table. Old temp files are swept, and a `finally` block removes the temp file while the uploaded Gemini file is deleted only on success.
- **Gemini response handling** (`gemini_client.php`): the configuration gate and the order of the error checks in `call_api`. The analysis parser removes a code fence and falls back to the raw text instead of failing.
- **Subtitles and transcripts** (`subtitle_extractor.php`, `client.php`, the CLI script).
  - The timedtext URL is scraped from the yt-dlp log and its track parameters are stripped. Two tracks are tried, and a transcript under 100 bytes is refused.
  - Caption nodes become a transcript with an `M:SS` / `H:MM:SS` line at each new minute.
  - VTT/SBV markup is stripped, durations are formatted, and one transcript file is chosen among Drive files.
- **The transcript batch script** (`cli/process_transcripts.php`). It loops over the recordings with its processed / skipped / errors counters, handles `--dry-run` and `--skip-gemini`, and writes the transcript and analysis rows. Its `extract_timedtext_url` and `parse_subtitle_xml` are the same computations as the extractor's `get_timedtext_url` and `parse_xml`. The model therefore defines them once (module `Subtitles`, module `Captions`), and `Cli.DecideIsExtract` states the correspondence.
- **Recording sync and editing** (`external.php`, `lib.php`, `client.php`).
  - Sync splits the Drive files into updates and inserts and deletes stale rows.
  - Recordings are filtered for an activity.
  - Recordings can be shown or hidden.
  - The manual analysis editor parses its key-point and topic text.
  - The recordings list is ordered, with analysis previews.
- **Scheduling rules** (`locallib.php`, `lib.php`):
  - weekly recurring sessions that skip holidays;
  - holiday and cancelled-date storage and lookup;
  - classification of upcoming sessions as live, soon, scheduled or cancelled;
  - meeting URL clean-up;
  - human-readable time differences;
  - the pagination arithmetic of the recordings table.

Database tables are modelled as maps from id to row, inside one `Store.Database` class whose methods insert and update rows. Its invariant is the unique key on `recordingid` of the analysis table (db/upgrade.php:139). The adhoc-task queue is a set of jobs. Code that updates state step by step is modelled with classes and loops, and each such method is proved against a specification function. Pure code is modelled with functions and lemmas. PHP strings are byte strings: a Dafny `string` stands for them with one `char` per byte, so `strlen` is the length. The clock, yt-dlp, curl, the filesystem, JSON and XML decoding, and the Gemini calls whose bodies are not part of this model are all parameters.

Three behaviours of the code that a reader might not expect are modelled as the code does them:

- `lib.php` updates `lastsync` in every case except one: a sync that only deletes leaves it alone (`Lib.LastSyncUnlessOnlyDeleted`).
- The uploaded Gemini file is deleted only when the analysis succeeds (`Video.Host.RemoteCalls`).
- A too-small download that is not an HTML page is left in the temp directory until the next sweep (`Video.DownloadFailureCleanup`).

## Model

| member | source | states |
|---|---|---|
| AiService.Restarted | classes/ai_service.php:107-120 | the row generate_analysis writes is processing with no error and modified now; an existing row keeps its id, recording, results and creation time, a new one is created now for the recording with no results |
| AiService.PendingIds | classes/ai_service.php:239 | a row is selected exactly when its status is pending |
| AiService.Oldest | classes/ai_service.php:239 | the chosen row belongs to the set and was created no later than any other row of it (`timecreated ASC`) |
| AiService.TakenBatch | classes/ai_service.php:236-240 | once the selection loop has taken as many rows as the limit allows, they are a pending batch: distinct pending rows, oldest first, no more than the limit (a limit of 0 takes every pending row), and no pending row left out that is older than one taken |
| AiService.Bump | classes/ai_service.php:305-317 | restarting a set of rows keeps every row id and every row's recording |
| AiService.BumpValid | classes/ai_service.php:114-120 | restarting rows in place keeps the unique key: at most one analysis per recording |
| AiService.WithRecording | classes/ai_service.php:309-316 | the rows of a batch that generate_analysis restarts are exactly those whose recording still exists |
| AiService.JobsFor | classes/ai_service.php:124-130 | one adhoc job per restarted row, naming that row and its recording, and no other job |
| AiService.Reported | classes/ai_service.php:285-294 | a status absent from the grouped result reads 0 |
| AiService.StatusCountsExact | classes/ai_service.php:274-297 | on the result of the grouped query, each of the four counters equals the number of analyses in that status whose recording belongs to the instance, absent statuses included |
| AiService.SyncStart | classes/ai_service.php:167-179 | the row generate_analysis_sync writes first is processing and modified now; an existing row keeps everything else, including its error column; a new row is created now |
| AiService.SyncFinish | classes/ai_service.php:189-212 | after the API answers the row is completed, with no error and the client's model, exactly when the call succeeded; on an exception it is the started row marked failed with the exception's message |
| AiService.SyncResult | classes/ai_service.php:181-215 | the synchronous call raises exactly when the API call raised, with the same exception; otherwise it returns a completed object for the row and recording |
| AiService.SyncReadBack | classes/ai_service.php:189-206 | after a successful synchronous run, reading the row back gives the object the call returned |
| AiService.Service.constructor | classes/ai_service.php:40-42 | the service's client is the Gemini client built from the settings |
| AiService.Service.GetAnalysis | classes/ai_service.php:59-71 | null exactly when the recording has no analysis row; otherwise that row with its key-point and topic lists decoded |
| AiService.Service.GenerateAnalysis | classes/ai_service.php:81-141 | a missing recording raises and writes nothing; a completed row (decoded lists) or a processing row (empty lists) is returned without writing or queueing unless regenerating; otherwise the recording's single row is updated in place or inserted as processing, one job is queued for it, and the result has empty summary, transcript and lists; the unique key is kept |
| AiService.Service.GenerateAnalysisSync | classes/ai_service.php:152-216 | a missing recording raises; an existing row is returned unchanged unless regenerating, whatever its status; otherwise the row is started, then ends completed with the results and the model or failed with the message, the exception being passed on; nothing is queued |
| AiService.Service.RequestAnalysis | classes/ai_service.php:183-187 | the answer is the outcome of the client's analyze_video call for the exchange |
| AiService.Service.DeleteAnalysis | classes/ai_service.php:224-228 | the recording's analysis rows are removed, all others kept, and the call reports true |
| AiService.Service.GetPendingAnalyses | classes/ai_service.php:236-240 | the result is a pending batch for the limit: distinct pending rows, oldest first, at most the limit, none older left out |
| AiService.Service.QueueForAnalysis | classes/ai_service.php:248-266 | an existing row is returned unchanged and nothing is written, so queueing twice is queueing once; otherwise a new pending row created now is inserted; afterwards the recording's row is the one returned |
| AiService.Service.GetStatusCounts | classes/ai_service.php:285-296 | every counter starts at 0 and ends as the count of the last grouped row for its status |
| AiService.Service.Regenerate | classes/ai_service.php:310-316 | one pending row: restarted in place with its job queued exactly when its recording exists; otherwise nothing changes (the exception is swallowed) |
| AiService.Service.RegenerateNext | classes/ai_service.php:309-317 | one pass of the loop: the row joins the restarted set exactly when its recording exists, and the counter grows by one exactly then |
| AiService.Service.RegenerateAll | classes/ai_service.php:307-319 | after the loop the table is the batch's rows with a recording restarted, the queue holds one job for each of them, and the count is their number, at most the batch size |
| AiService.Service.ProcessPending | classes/ai_service.php:305-320 | the rows visited are the pending batch for the limit; exactly those with a recording are restarted and queued; the result counts them and never exceeds a non-zero limit |
| AiTask.Execute | classes/task/process_ai_analysis.php:42-60 | nothing is processed and nothing changes when AI is disabled or the API key is empty; otherwise process_pending runs with limit 5, at most 5 rows are restarted, and no per-row failure escapes |
| External.SyncedInstance | classes/external.php:142-168 | lastsync becomes now exactly when some file was updated or inserted; the creator email is filled only by the insert branch and only when it was empty |
| External.TouchInstance | classes/external.php:142-168 | only the instance's row changes, to its synced form |
| External.SyncRecordings | classes/external.php:82-172 | the recordings table becomes the reconciled table (every stale row deleted, as corrected under Findings; matching files update their rows, the rest are inserted; unprocessed flags are not consulted), analyses are untouched, and the instance row is synced according to whether the update and insert sets are non-empty |
| External.Toggled | classes/external.php:299-305 | visibility is flipped, the modification time set, and nothing else changes |
| External.ToggleTwice | classes/external.php:299-305 | toggling twice restores the recording except for its modification time |
| External.ShowHideRecording | classes/external.php:297-311 | a missing recording raises (the bool read of a false result) and writes nothing; otherwise it returns the new visibility and only that recording is toggled |
| External.ManualRow | classes/external.php:669-697 | the manual row is completed, with no error, model 'manual', the given summary, transcript and parsed lists, modified now; an update keeps the recording, language and creation time, an insert sets language 'es' and creation time now |
| External.SaveAiAnalysis | classes/external.php:613-710 | raises exactly when the recording is missing, then writing nothing; otherwise the recording's single row (kept id, or the next one) becomes the manual row of the parsed key points (read with the bullet class as corrected under Findings) and topics, and the reply echoes what was saved |
| External.ParseStatus | classes/external.php:438 | a recognised status name is the name of the status it returns |
| External.StatusRoundTrip | classes/external.php:438 | every status's name parses back to that status |
| External.ReplyOf | classes/external.php:430-443 | the reply carries the row's id, recording, lists and status; a missing summary, language or error reads '', 'en' and '' |
| External.NotFound | classes/external.php:518-533 | the not-found reply has id 0, the asked recording, and an empty status |
| External.GetAiAnalysis | classes/external.php:500-551 | found exactly when the recording has an analysis row, and exactly when the status is non-empty; found gives that row's reply, not found the empty reply |
| External.Answer | classes/external.php:427-446 | success maps the analysis to its reply; any exception becomes ai_error carrying the original message |
| External.GenerateAiAnalysis | classes/external.php:405-447 | an unavailable service raises ai_not_configured and writes nothing; otherwise the result is generate_analysis's outcome mapped to a reply; a missing recording raises ai_error; an existing recording always yields a reply for its single row |
| RecordingSync.StoredIds | classes/external.php:100-102 | one Drive id per stored row, in the rows' order (`array_column` of recordingid) |
| RecordingSync.FileIds | classes/external.php:103 | one Drive id per incoming file, in order |
| RecordingSync.Taken | lib.php:379-387 | the files that take part: all of them in the web service, those not flagged unprocessed in lib.php |
| RecordingSync.Partition | classes/external.php:109-115 | the update and insert lists are together a permutation of the taking-part files; every update's id is stored, no insert's id is |
| RecordingSync.PartitionSpec | classes/external.php:109-115 | a taking-part file goes to the update list exactly when its id is stored and to the insert list exactly when it is not, and the two sizes add up to the number of taking-part files |
| RecordingSync.PartitionFiles | classes/external.php:109-115 | the loop builds exactly the partition |
| RecordingSync.LastStaleIndex | classes/external.php:117-121 | the index found is of a stale row with no stale row after it; none is found exactly when no row is stale |
| RecordingSync.LastStale | classes/external.php:117-121 | the row left in `$deleterecordings['id']` is stale, and there is none only when no row is stale |
| RecordingSync.FindStale | classes/external.php:117-121 | the loop leaves the last stale row |
| RecordingSync.DeleteLastStale | classes/external.php:123-125 | as written: the table keeps every row except possibly the last stale one |
| RecordingSync.DeleteAllStale | classes/external.php:117-125 | as intended: no stale row of the activity remains, every other row is kept unchanged |
| RecordingSync.SyncedRecordingsAsWritten | classes/external.php:100-159 | as written; see Findings: after the sync no row appears that was not stored before or inserted, an old row is missing only when it is the last stale one, and every insert gets a fresh id from the next one on |
| RecordingSync.SyncedRecordings | classes/external.php:100-159 | as corrected under Findings: after the sync no row appears that was not stored before or inserted, no stale row of the activity survives, every row that is not stale is kept, and every insert gets a fresh id from the next one on |
| RecordingSync.DeleteStale | classes/external.php:117-125 | the delete loop removes every stale row of the activity and nothing else |
| RecordingSync.PrunedDescribes | classes/external.php:129-132 | after the delete, every stored Drive id still looked up names its row or a deleted one, so the update lookup stays well defined |
| RecordingSync.Position | classes/external.php:110 | the first position of a Drive id among the stored ids, none exactly when it is absent |
| RecordingSync.Refreshed | classes/external.php:134-137 | an update keeps the row's identity and name, takes the file's created time, duration and link, and is modified now; lib.php fills the transcript only when the stored one is empty and the incoming one is not |
| RecordingSync.UpdateOne | classes/external.php:128-140 | one update refreshes only the rows stored for the file's id, each then carrying the file's fields |
| RecordingSync.UpdatedAll | classes/external.php:127-140 | applying all updates keeps every key and identity, leaves unlisted rows alone, and every changed row carries the fields of some update |
| RecordingSync.RefreshesThen | classes/external.php:128-140 | two rounds of updates compose into one |
| RecordingSync.UpdateRow | classes/external.php:129-139 | one pass of the update loop |
| RecordingSync.ApplyUpdates | classes/external.php:127-140 | the update loop ends with the table of all updates applied |
| RecordingSync.NewRecording | classes/external.php:149-156 | an inserted row belongs to the activity, carries the file's id, name, created time, duration and link, is visible, modified now, and holds the file's transcript only in lib.php and only when non-empty |
| RecordingSync.NewRows | classes/external.php:148-159 | one new row per insert, in order |
| RecordingSync.InsertFiles | classes/external.php:147-159 | the insert loop adds the new rows under consecutive fresh ids |
| RecordingSync.Reconcile | classes/external.php:100-159 | the partition is returned, and the table becomes: stale rows deleted, updates applied, inserts added |
| RecordingSync.CarriedRowSurvives | classes/external.php:117-140 | a stored row whose Drive id is carried by an incoming file survives the delete and the updates with its identity |
| RecordingSync.UpdatedFileStored | classes/external.php:127-140 | after a sync an incoming file whose id was stored is stored for the activity |
| RecordingSync.InsertedFileStored | classes/external.php:147-159 | after a sync an incoming file whose id was not stored is stored for the activity |
| RecordingSync.SyncStoresEveryFile | classes/external.php:100-159 | after a sync every taking-part incoming file is stored for the activity |
| RecordingSync.SyncLeavesOtherActivities | classes/external.php:100-159 | a sync leaves the rows of other activities unchanged |
| RecordingSync.UpdatesCarryFileIds | classes/external.php:109-115 | every update's id is an incoming file id |
| RecordingSync.InsertsCarryFileIds | classes/external.php:109-115 | every insert's id is an incoming file id |
| RecordingSync.UpdatesSkipStale | classes/external.php:127-140 | the updates never touch a stale row |
| RecordingSync.EarlierStaleSurvives | classes/external.php:117-125 | as written: with two stale rows, the earlier one is still stored after the sync |
| RecordingSync.DeleteAllStaleClears | classes/external.php:117-125 | of two stale rows, the last-stale delete keeps the earlier one while the corrected delete removes it |
| RecordingSync.UpdatedRowNotStale | classes/external.php:117-140 | every row of the activity left after delete and updates has an incoming file id |
| RecordingSync.InsertedAllNew | classes/external.php:158 | a row not there before the inserts is one of them, under its fresh id |
| RecordingSync.SyncKeepsUpdatedRow | classes/external.php:100-140 | an older row of the activity left after a sync has an incoming file id |
| RecordingSync.SyncKeepsInsertedRow | classes/external.php:147-159 | a newly inserted row of the activity has an incoming file id |
| RecordingSync.SyncKeepsOnlyIncomingFiles | classes/external.php:100-159 | after a sync, every row of the activity holds the Drive id of some incoming file: with SyncStoresEveryFile the stored ids are exactly the incoming ones |
| Lib.Midnight | lib.php:537 | the start of a timestamp's UTC day: a multiple of a day, at most the timestamp and less than a day before it |
| Lib.MidnightSameDay | lib.php:537-543 | two timestamps have the same midnight exactly when they fall on the same day |
| Lib.IsAscendingSpec | lib.php:273 | the order is ascending exactly when the text upper-cases to `ASC`, i.e. is `asc` in any mix of cases; anything else is descending |
| Lib.Preview | lib.php:309-312 | a summary of at most 200 bytes is its own preview; a longer one gives its first 200 bytes and `...` |
| Lib.Entries | lib.php:275-282 | the fetched rows with their ids, one per listed row, in order |
| Lib.CreatedKeyOrder | lib.php:278 | a list is sorted by the key exactly when its creation times never decrease (ascending) or never increase (descending), so the key is `ORDER BY createdtime ASC/DESC` |
| Lib.Page | lib.php:275-282 | the fetched page is the window at the offset of the selected rows sorted by the creation-time key: at most the limit (0 means all) of the activity's rows, each with its own record, ordered by creation time in the chosen direction |
| Lib.PageSize | lib.php:275-282 | an offset past the end gives no rows; otherwise the page holds the rest of the rows with limit 0 and min(rest, limit) with a limit; with no offset and no limit it holds every selected row |
| Lib.CompletedAnalysis | lib.php:289-297 | the attached analysis exists exactly when the recording has a completed analysis, and it is that row |
| Lib.Joined | lib.php:289-306 | AI data is attached exactly when asked for and the recording has a completed analysis |
| Lib.Formatted | lib.php:301-329 | a listed recording keeps its id, activity, name, creation time, duration, link and visibility; it has AI exactly when an analysis is joined, and then its summary, key points, topics, model and date are the analysis's (empty when a field is missing); its preview is the preview of its summary and its key-point count the length of its list; without AI the AI fields are empty |
| Lib.Listing | lib.php:269-333 | the listing has one entry per row of the fetched page, in page order, each the page row formatted with its joined completed analysis; so it holds at most the limit of the given rows, sorted by creation time as asked, and a recording has AI exactly when asked and it has a completed analysis |
| Lib.ListRecordings | lib.php:300-332 | the formatting loop builds exactly the listing |
| Lib.StaleRows | lib.php:389-393 | the stale rows of the activity: exactly those listed whose Drive id no incoming file carries |
| Lib.StaleCount | lib.php:389-406 | the number of stale rows, which the delete as corrected under Findings removes (the code as written reports 1 at most): at most the number listed, and 0 exactly when no row is stale |
| Lib.WithoutRecordings | lib.php:403 | the analyses of the given recordings are removed, every other analysis is kept |
| Lib.DeleteStaleAnalyses | lib.php:401-406 | as corrected under Findings, the analyses of every stale recording are deleted, nothing else, and the count is the number of stale rows |
| Lib.DeleteStaleAnalysesAsWritten | lib.php:389-406 | as written; see Findings: only the analyses of the last stale row are deleted, every other analysis is kept unchanged, and the reported count is 1 exactly when some row is stale |
| Lib.EarlierStaleAnalysisSurvives | lib.php:389-406 | as written; see Findings: with two stale rows the earlier row's analysis survives and the count says 1, while the corrected delete removes that analysis and counts at least 2 |
| Lib.DeleteIfStale | lib.php:401-405 | one row of the delete loop: its analyses go exactly when it is stale, and the count grows by one exactly then |
| Lib.SyncRecordings | lib.php:363-473 | unprocessed files take no part; stale recordings are deleted together with their analyses (every stale one, as corrected under Findings); the rest of the table is reconciled with the transcript filled only when empty; the statistics count the inserts, the updates and the deleted rows; lastsync is touched as the code does |
| Lib.TouchLastSync | lib.php:430-467 | only the instance's lastsync changes, and only when asked |
| Lib.LastSyncUnlessOnlyDeleted | lib.php:430-467 | lastsync is left alone exactly when nothing was updated or inserted but something was deleted |
| Lib.At | lib.php:499-501 | a form array's i-th value is present exactly when i is within it (`?? null`) |
| Lib.HolidayEntry | lib.php:499-511 | a form row gives a holiday exactly when both dates are set and the end is not before the start; it keeps the name ('' when missing) and both dates |
| Lib.HolidayRows | lib.php:493-514 | every saved holiday is a valid period of the activity and comes from some form row, and every valid form row is saved |
| Lib.OtherHolidays | lib.php:485 | the holidays of other activities, unchanged |
| Lib.SaveHolidays | lib.php:481-515 | the activity's holidays are replaced by the valid form rows under fresh ids, inserted only when recurrence is on and the repeat count is set |
| Lib.SaveHolidayEntry | lib.php:499-513 | one pass of the save loop keeps the saving invariant |
| Lib.SavedHolidaysSpec | lib.php:481-515 | after a save the activity's holidays are exactly the form's valid rows: each is a valid period taken from a form row (only when recurrence is on), every valid form row is stored, and other activities' holidays are unchanged |
| Lib.IsHoliday | lib.php:535-549 | a timestamp is a holiday exactly when its day lies within the days of some holiday, both ends included |
| Lib.HolidayByDay | lib.php:537 | two timestamps of the same day are holidays alike |
| Lib.CancelledEntry | lib.php:574-584 | a form row gives a cancelled date exactly when its date is set; it keeps the reason ('' when missing) |
| Lib.CancelledRows | lib.php:569-587 | every saved date is set, belongs to the activity and comes from some form row, and every set form date is saved |
| Lib.OtherCancelled | lib.php:561 | the cancelled dates of other activities, unchanged |
| Lib.SaveCancelled | lib.php:557-588 | the activity's cancelled dates are replaced by the set form dates under fresh ids, inserted only when recurrence is on and the repeat count is set |
| Lib.SaveCancelledEntry | lib.php:574-586 | one pass of the save loop keeps the saving invariant |
| Lib.SavedCancelledSpec | lib.php:557-588 | after a save the activity's cancelled dates are exactly the form's set dates: each is taken from a form row (only when recurrence is on), every set form date is stored, and other activities' dates are unchanged |
| Lib.FirstCancelled | lib.php:612-618 | the position found holds an entry of the same day and none before it does; there is none exactly when no entry is of that day |
| Lib.IsCancelled | lib.php:608-621 | the entry returned is of the timestamp's day; false exactly when no entry is |
| LocalLib.Clamp | locallib.php:249 | the clamped value lies in the bounds, equals the input when that is already in them, and is the nearer bound otherwise |
| LocalLib.Weekday | locallib.php:124 | a weekday number from 0 (Sunday) to 6 |
| LocalLib.StartWeek | locallib.php:123-130 | the week window starts a whole number of days before the first recurrence day and less than a week before it |
| LocalLib.Lead | locallib.php:98-116 | the first event is added exactly when its date is not a holiday, with the activity, the computed date, duration end − start and modification time now |
| LocalLib.ScanDay | locallib.php:135-157 | one day inside the week window: the scan invariant holds one day later (the day's event added exactly when it is eligible) |
| LocalLib.ScanWeek | locallib.php:158-161 | at the end of a week window the window start jumps by `period` weeks and the scan invariant holds for the next window |
| LocalLib.RecurringEvents | locallib.php:118-163 | the recurrence loop emits exactly one event per eligible day (a selected weekday inside a window, after the first date, before the end date plus end time, not a holiday), each built from that day, in strictly increasing order of day |
| LocalLib.EventTimesIncrease | locallib.php:138-144 | a later eligible day gives a later event time |
| LocalLib.WindowStartMono | locallib.php:159 | window starts never decrease, for a period of at least 1 |
| LocalLib.GapInNoWindow | locallib.php:158-160 | the days skipped between two windows lie in no window, so the jump misses no eligible day |
| LocalLib.ConstructEvents | locallib.php:95-166 | the events are the lead event, when not a holiday, followed by the recurring sessions, which exist only when recurrence is on |
| LocalLib.SessionRows | locallib.php:109-155 | every generated event belongs to the activity, lasts end − start, is modified now, and is not on a holiday |
| LocalLib.SessionOfEligibleDay | locallib.php:147-155 | each recurring event is of the activity, with the shared duration, not on a holiday, and after the first date |
| LocalLib.LeadBeforeRecurring | locallib.php:109-155 | the first event comes before every recurring one |
| LocalLib.SessionsInOrder | locallib.php:95-166 | the generated events are in strictly increasing date order |
| LocalLib.FirstMatchFrom | locallib.php:369 | the first position from which the meeting pattern matches, or none when it matches nowhere after the start |
| LocalLib.ClearUrlAsWritten | locallib.php:367-376 | as written, with `.` matching any character: a result exists exactly when the pattern matches somewhere, and it is `https://` plus the 28 characters of the leftmost match |
| LocalLib.ClearUrl | locallib.php:367-376 | as intended, with literal dots: a result exists exactly when the URL holds `meet.google.com/xxx-xxxx-xxx`, and it is `https://` plus the 28 characters of the leftmost such match |
| LocalLib.LookalikeHost | locallib.php:368 | a look-alike host such as `meetXgoogleYcom/abc-defg-hij` passes the code as written and is refused by the corrected pattern |
| LocalLib.ClearUrlIdempotent | locallib.php:367-376 | clearing an already cleared URL gives it back |
| LocalLib.FormatTimeDiff | locallib.php:578-593 | the sign is ignored; under a minute gives 1 minute; otherwise the unit is minutes under an hour, hours under a day and days after, and the amount is the duration in that unit rounded half up as round() does, at least 1 |
| LocalLib.HalfwayRoundsUp | locallib.php:584-587 | 90 seconds is 2 minutes and 5400 seconds is 2 hours: halfway rounds up |
| LocalLib.FormatTimeDiffSymmetric | locallib.php:579 | a difference and its negation are described alike |
| LocalLib.Classify | locallib.php:645-685 | an event is cancelled exactly when its day is cancelled, with that entry's reason |
| LocalLib.StatusByStart | locallib.php:660-684 | for a running or future event that is not cancelled: live exactly when it has started, soon exactly when it starts within 1800 s, scheduled exactly when later |
| LocalLib.Describe | locallib.php:625-687 | the description keeps the start and duration, is today exactly when start and now share a day, carries the status, and has no time text exactly when cancelled; live shows the time since the start, soon and scheduled the time until it |
| LocalLib.NotEndedRows | locallib.php:613-616 | exactly the activity's events that have not ended |
| LocalLib.EventDateKeyOrder | locallib.php:617 | a list is sorted by the key exactly when its event dates never decrease, so the key is `ORDER BY eventdate ASC` |
| LocalLib.Soonest | locallib.php:610-620 | the query returns min(clamped maximum, number of not-ended events) of the activity's not-ended events, in date order, and no not-ended event it leaves out is earlier than one it returns; none exactly when no event is still running or upcoming |
| LocalLib.GetUpcomingEvents | locallib.php:601-707 | one description per event of the query (the earliest not-ended events, as Soonest states), in order |
| LocalLib.DescribeEach | locallib.php:624-688 | the loop builds exactly one block entry per session, in the sessions' order, each the session's description |
| LocalLib.UpcomingStatuses | locallib.php:645-684 | a listed event is live exactly when it is not cancelled and has started; a scheduled one starts more than 1800 s from now |
| LocalLib.CeilDiv | locallib.php:263 | the number of pages: 0 exactly when there are no recordings, otherwise the least count of pages that holds them all |
| LocalLib.OffsetBounds | locallib.php:263-265 | on a clamped page the offset is within the recordings, and a page before the last is full |
| LocalLib.PageOffset | locallib.php:265 | the offset is page × size, points inside the recordings when there are any, and leaves a full page before the last page |
| LocalLib.Paginate | locallib.php:248-289 | the page size is the setting clamped to [1, 20], 5 when unset; the page count is the ceiling of total / size; the page is the request clamped to [0, pages − 1]; the offset is page × size; the range runs from offset + 1 (0 when empty) to min(offset + size, total), so every shown row exists and a non-empty list always shows one; previous, next and pagination flags follow the page |
| LocalLib.PageLinks | locallib.php:276-285 | one link per page, numbered from 1, the link of page `i` active exactly when `i` is the current page, so the integer page that Paginate clamps into range marks exactly one link |
| LocalLib.ClampedPageAsWritten | locallib.php:263-264 | the clamped page has the right value, but it is a float exactly when there are at least two pages and the requested page is past the last one |
| LocalLib.PastLastPageNoActiveLink | locallib.php:264-281 | as written; see Findings: with two pages and page 5 requested, the page becomes the float 1 and neither link is marked active |
| Subtitles.FirstIn | classes/subtitle_extractor.php:124-128 | the index found is of the first executable candidate; none exactly when no candidate is executable |
| Subtitles.YtDlpPathSpec | classes/subtitle_extractor.php:116-137 | a found path is executable and non-empty; `/tmp/yt-dlp` wins when executable; nothing is found exactly when no fixed location is executable and the trimmed `which` output is empty or not executable |
| Subtitles.YtDlpPath | classes/subtitle_extractor.php:116-137 | a path found is one that is executable; nothing is found only when none of the fixed locations is executable |
| Subtitles.FindYtDlp | classes/subtitle_extractor.php:116-137 | the search loop returns the path of the ordered choice |
| Subtitles.NewExtractorAsWritten | classes/subtitle_extractor.php:45-48 | as written, a built extractor keeps its language |
| Subtitles.AsWrittenNeverUnavailable | classes/subtitle_extractor.php:45-57 | as written, an extractor that is built is always available, and building raises exactly when yt-dlp is not found: storing null in the `string` property fails, so is_available never reports false |
| Subtitles.NewExtractor | classes/subtitle_extractor.php:45-48 | as intended (nullable path), the extractor keeps its language |
| Subtitles.NewExtractorAvailable | classes/subtitle_extractor.php:55-57 | as intended, the extractor is available exactly when yt-dlp was found, and when it was found it is the one the code as written builds |
| Subtitles.MatchAt | classes/subtitle_extractor.php:157 | a match at a position is a URL starting `https://drive.google.com/timedtext?`, with at least one more character and no quote after the prefix |
| Subtitles.ScanFromFound | classes/subtitle_extractor.php:157-159 | a URL found from a position is the match at some position with no match before it |
| Subtitles.ScanFromNone | classes/subtitle_extractor.php:157-161 | finding nothing from a position means no position from there matches |
| Subtitles.ScanFromSpec | classes/subtitle_extractor.php:157-161 | the scan returns the leftmost match from the position, and nothing exactly when there is none |
| Subtitles.ScanFrom | classes/subtitle_extractor.php:157-161 | a match at the starting position is the one returned; any capture starts with the timedtext prefix, has at least one more byte and holds no quote after the prefix |
| Subtitles.TimedtextUrlSpec | classes/subtitle_extractor.php:157-161 | the URL scraped from the tool's log is the leftmost quoted timedtext URL after `Invoking http downloader on "`, starting with the timedtext prefix; null exactly when there is none |
| Subtitles.TimedtextUrl | classes/subtitle_extractor.php:148-164 | a scraped URL starts with `https://drive.google.com/timedtext?`, has at least one more byte and holds no quote after the prefix |
| Subtitles.TailFrom | classes/subtitle_extractor.php:83 | the first position from a start where `&type=track` begins, none exactly when it does not occur after the start |
| Subtitles.TailFromIsFind | classes/subtitle_extractor.php:83 | on a one-line URL the tail search is the plain substring search |
| Subtitles.StripTrack | classes/subtitle_extractor.php:83 | stripping never lengthens the URL |
| Subtitles.StripTrackSpec | classes/subtitle_extractor.php:83 | a URL without `&type=track` is unchanged; otherwise it is cut at the first occurrence; the result never contains it |
| Subtitles.TrackUrlFind | classes/subtitle_extractor.php:86 | in a track URL built on a base without `&type=track`, the first occurrence is right after the base |
| Subtitles.StripTrackUrl | classes/subtitle_extractor.php:83-91 | stripping a track URL built on a clean base gives the base back |
| Subtitles.StripTrackUrls | classes/subtitle_extractor.php:83-91 | both the ASR URL and the named-track URL strip back to their base |
| Subtitles.ExtractGuards | classes/subtitle_extractor.php:65-80 | the tool runs exactly when yt-dlp is available and the Drive URL is non-empty; without it, or without a timedtext URL in its log, the result is null and nothing is downloaded |
| Subtitles.Extract | classes/subtitle_extractor.php:65-108 | yt-dlp runs exactly when it is available and the Drive URL is not PHP-empty; at most two subtitle URLs are fetched; a returned transcript has at least 100 bytes, came from a run of the tool and from at least one fetch |
| Subtitles.ExtractFallback | classes/subtitle_extractor.php:83-93 | the ASR URL is fetched first; the named-track URL is fetched second exactly when the ASR body is empty |
| Subtitles.ExtractResult | classes/subtitle_extractor.php:95-108 | a transcript is returned exactly when a body was downloaded and its parsed transcript has at least 100 bytes, and then it is that transcript unchanged |
| Subtitles.UnparsableGivesNothing | classes/subtitle_extractor.php:199-206 | when the XML never parses, extraction returns null |
| Captions.Clock | classes/subtitle_extractor.php:220-231 | a caption timestamp has at least four characters (`M:SS`) |
| Captions.ClockFields | classes/subtitle_extractor.php:220-222 | hours, minutes within the hour and seconds within the minute recompose the start |
| Captions.LongClockValue | classes/subtitle_extractor.php:228 | three digit fields read back as hours × 3600 + minutes × 60 + seconds |
| Captions.ShortClockValue | classes/subtitle_extractor.php:230 | two digit fields read back as minutes × 60 + seconds |
| Captions.ParseLongClock | classes/subtitle_extractor.php:228 | an `H:MM:SS` stamp reads back as its number of seconds |
| Captions.ParseShortClock | classes/subtitle_extractor.php:230 | an `M:SS` stamp reads back as its number of seconds |
| Captions.ClockRoundTrip | classes/subtitle_extractor.php:220-231 | every timestamp line reads back as the caption's whole start second: the format loses nothing |
| Captions.RenderAll | classes/subtitle_extractor.php:232-238 | one output line per stamp or caption |
| Captions.RenderAllAppend | classes/subtitle_extractor.php:232-238 | rendering distributes over concatenation |
| Captions.EntriesStep | classes/subtitle_extractor.php:211-239 | the lines of a node list are the node's lines followed by those of the rest, with the minute updated |
| Captions.ChunkLines | classes/subtitle_extractor.php:213-238 | an empty caption (trimmed, PHP-empty, "0" included) yields nothing; a kept caption in a new minute yields its stamp then its decoded text; otherwise only the text |
| Captions.LinesBeforeThenEntries | classes/subtitle_extractor.php:208-239 | the lines emitted for the first i nodes, followed by those of the rest from the minute reached, are all the lines |
| Captions.AllLines | classes/subtitle_extractor.php:208-239 | after the last node the accumulated lines are exactly the lines of the whole document |
| Captions.AddNode | classes/subtitle_extractor.php:211-239 | one pass of the loop appends the node's lines and moves the last minute as the code does |
| Captions.ParseXml | classes/subtitle_extractor.php:199-242 | the loop produces the transcript: '' for an unparsable document, otherwise the stamp and caption lines joined with newlines |
| Captions.Transcript | classes/subtitle_extractor.php:199-242 | an unparsable or empty document gives ''; when the first caption is kept, the text is at least as long as its clock stamp |
| Captions.CaptionTextsAppend | classes/subtitle_extractor.php:238 | the captions of joined lines are the captions of each part |
| Captions.StampMinutesAppend | classes/subtitle_extractor.php:232 | the stamp minutes of joined lines are those of each part |
| Captions.CaptionsInOrder | classes/subtitle_extractor.php:211-239 | the caption lines are exactly the kept captions' decoded texts, in document order: none lost, none added |
| Captions.StampsIncrease | classes/subtitle_extractor.php:223-234 | the minutes of the emitted stamps strictly increase and all exceed the starting minute (−1 at first) |
| Captions.KeptMinutesSplit | classes/subtitle_extractor.php:223-234 | on ascending starts, the new minutes of a list are the first node's when it is new, then those of the rest |
| Captions.OneStampPerMinute | classes/subtitle_extractor.php:223-234 | on ascending starts, a stamp is emitted for exactly the minutes in which some kept caption starts |
| Captions.ExampleEntries | classes/subtitle_extractor.php:189-194 | captions at 65 s, 66 s (padded), 70 s (blank) and 125 s give a stamp at 1:05, two trimmed captions, no line for the blank one, a stamp at 2:05 and the last caption |
| Captions.ExampleLines | classes/subtitle_extractor.php:228-230 | those lines render as `1:05`, `a`, `b`, `2:05`, `c` |
| Captions.ExampleTranscript | classes/subtitle_extractor.php:241 | the example transcript is `1:05\na\nb\n2:05\nc` |
| DriveClient.NameMatchFromSpec | classes/client.php:471-472 | the third check matches exactly when `\b<name>\s*[(-]` matches at some offset of the lower-cased name |
| DriveClient.KnownIds | classes/client.php:450 | every Drive id already stored, in any activity, is known |
| DriveClient.Filtered | classes/client.php:438-478 | the kept recordings are never more than the input, and [] for an empty input |
| DriveClient.FilteredAppend | classes/client.php:445-476 | filtering is decided recording by recording, so it distributes over concatenation: the result is an order-preserving subsequence |
| DriveClient.FilteredSpec | classes/client.php:443-476 | for any case folding `fold` standing for core_text::strtolower: every kept recording is an input one that is not stored yet and whose folded name contains the folded meeting code, starts with the folded trimmed activity name, or matches the third pattern; every input recording meeting that test is kept |
| DriveClient.KnownNeverKept | classes/client.php:449-454 | a recording whose Drive id is stored in any activity is never kept |
| DriveClient.FilterRecordingsForActivity | classes/client.php:435-479 | the loop returns exactly the filtered recordings |
| DriveClient.StripLabel | classes/client.php:605 | removing a leading `[...]` label never lengthens a line and leaves one not starting with `[` unchanged |
| DriveClient.VoiceTagEnd | classes/client.php:606 | a `<v ...>` tag found at the start closes with `>` after at least one name byte |
| DriveClient.StripVoiceTags | classes/client.php:606 | removing `<v ...>` tags never lengthens a line |
| DriveClient.StripVoiceClose | classes/client.php:607 | removing `</v>` never lengthens a line |
| DriveClient.StripVoiceTagsPlain | classes/client.php:606-607 | a line without `<` is left alone by both tag removals |
| DriveClient.CleanLine | classes/client.php:605-607 | cleaning a cue line never lengthens it |
| DriveClient.Piece | classes/client.php:581-611 | a raw line yields at most one piece, and only a non-empty one |
| DriveClient.Pieces | classes/client.php:580-612 | at most one non-empty piece per line |
| DriveClient.PlainPiece | classes/client.php:581-611 | a line of plain text (not empty, no WEBVTT, cue time, cue number, label or tag) is kept as its trimmed self |
| DriveClient.Trims | classes/client.php:581 | one trimmed line per line |
| DriveClient.TrimmedPieces | classes/client.php:580-612 | when each line is kept as its trimmed self, the pieces are the trimmed lines |
| DriveClient.PlainPieces | classes/client.php:580-612 | plain lines are all kept, each trimmed, in order |
| DriveClient.MarkupDropped | classes/client.php:583-601 | an empty line, a WEBVTT header, a cue time line or a cue number line is dropped |
| DriveClient.CaptionPieces | classes/client.php:580-612 | the loop keeps exactly the pieces of the lines |
| DriveClient.ParseTranscript | classes/client.php:567-615 | the parsed text is the transcript of the content; with format `txt` in any case it is the trimmed content verbatim |
| DriveClient.FormatSeconds | classes/client.php:624-628 | under a minute the time reads `0:SS` |
| DriveClient.FormatSecondsIsClock | classes/client.php:624-636 | the Drive duration format is the caption clock of the whole seconds: `M:SS` under an hour, `H:MM:SS` after, zero-padded |
| DriveClient.LongClock | classes/client.php:631-635 | from an hour up the format is `H:MM:SS` |
| DriveClient.FormatSecondsRoundTrip | classes/client.php:624-636 | the formatted duration reads back as the whole seconds of the milliseconds |
| DriveClient.Extensions | classes/client.php:511 | one lower-cased extension per listed file |
| DriveClient.FirstOf | classes/client.php:510-519 | the first file whose extension is of the given kinds, none exactly when there is none |
| DriveClient.PreferredSpec | classes/client.php:508-519 | the chosen file is a caption (`sbv`, `vtt`) or text file; none is chosen exactly when there is none of either; whenever a caption file exists a caption file is chosen |
| DriveClient.FirstOfStep | classes/client.php:510-519 | looking at one more file keeps an earlier find and otherwise finds the new file exactly when it is of the kinds |
| DriveClient.FirstOfAt | classes/client.php:510-519 | a file of the kinds with none before it is the first |
| DriveClient.ChoosePreferred | classes/client.php:509-519 | the loop, with its early break on a caption file, chooses the preferred file |
| DriveClient.ChooseTranscriptFile | classes/client.php:507-519 | the file chosen from a listing is the preferred one by extension |
| DriveClient.FindTranscript | classes/client.php:504-539 | a transcript is returned exactly when the listing succeeded, a file was chosen and its download is non-empty, and then it is that file's id with its content parsed by its extension |
| Wrappers.Message | lang/en/googlemeet.php:245-246 | an ai_error message is `Error generating analysis: ` followed by its detail; a foreign exception keeps its own message |
| Store.FindByRecording | db/upgrade.php:139 | the row found belongs to the recording; none is found exactly when no row does |
| Store.FindByRecordingUnique | db/upgrade.php:139 | under the unique key, the recording's row is the one found |
| Store.Database.constructor | db/upgrade.php:139 | an empty database satisfies the unique key |
| Store.Database.InsertAnalysis | classes/ai_service.php:119 | an insert stores the row under a fresh id and keeps the unique key, given the recording has no row yet |
| Store.Database.UpdateAnalysis | classes/ai_service.php:116 | an update replaces the row in place under its id and keeps the unique key |
| Store.Database.InsertRecording | classes/external.php:158 | an insert stores the recording under a fresh id |
| Store.Database.InsertHoliday | lib.php:512 | an insert stores the holiday under a fresh id |
| Store.Database.InsertCancelled | lib.php:585 | an insert stores the cancelled date under a fresh id |
| Store.InsertedAll | classes/external.php:148-159 | a run of inserts adds the items under consecutive fresh ids and keeps every older row |
| Store.InsertedAllSnoc | classes/external.php:158 | one more insert adds the item under the next id |
| Store.DeletedWhere | lib.php:485 | deleting by one column's value removes exactly the rows holding that value and keeps every other row unchanged; the holiday, cancelled-date and analysis deletes are this one operation |
| Store.WithoutRecording | classes/ai_service.php:227 | deleting by recording removes exactly that recording's rows and keeps the others unchanged |
| Store.WithoutRecordingValid | classes/ai_service.php:227 | the delete keeps the unique key and leaves the recording with no row |
| Query.Insert | lib.php:278 | inserting into a sorted list keeps it sorted and adds exactly the item |
| Query.SortBy | lib.php:278 | `ORDER BY` yields a sorted permutation of the rows |
| Query.Window | lib.php:280-281 | `LIMIT`/offset yields the rows from the offset on, at most `limit` of them (0 meaning all), in order |
| Query.WindowSorted | lib.php:278-281 | a window of a sorted list is sorted |
| Query.WindowWithin | lib.php:280-281 | a window holds only rows of the list |
| Query.WindowEarliest | lib.php:278-281 | a first page of a sorted list leaves out nothing that sorts before an element it holds |
| Query.SortedPage | locallib.php:610-620 | the first page of a list sorted by a key has min(page size, list length) elements, is sorted, is drawn from the list and holds its least elements |
| Php.TrimSpec | classes/external.php:640 | `trim` leaves no white space at either end and is idempotent |
| Php.Trim | classes/client.php:443 | `trim` never lengthens the text; what it removes is stated by Php.TrimSpec |
| Php.TrimLeftSpec | classes/external.php:640 | the left trim drops exactly the leading white space |
| Php.TrimLeft | classes/external.php:640 | the left trim never lengthens the text; what it removes is stated by Php.TrimLeftSpec |
| Php.TrimRightSpec | classes/external.php:640 | the right trim drops exactly the trailing white space |
| Php.TrimRight | classes/external.php:640 | the right trim never lengthens the text; what it removes is stated by Php.TrimRightSpec |
| Php.SkipSpaces | classes/external.php:643 | `\s*` consumes the leading white space and stops at the first other byte |
| Php.ToLower | classes/client.php:511 | lower-casing keeps the length and maps each byte |
| Php.ToUpper | lib.php:273 | upper-casing keeps the length and maps each byte |
| Php.FindFrom | classes/client.php:457 | `strpos` from an offset finds the first occurrence there or after, none exactly when there is none |
| Php.Find | classes/client.php:457 | `strpos` finds the first occurrence, none exactly when there is none |
| Php.Digit | classes/client.php:628 | a decimal digit character of the given value |
| Php.NatToStringDigits | classes/client.php:628 | a number prints as digits only |
| Php.ParseNatToString | classes/client.php:628 | a printed number reads back as itself |
| Php.PadLeft2 | classes/client.php:628 | `str_pad(..., 2, "0", STR_PAD_LEFT)` keeps the text at the end, fills with zeros up to two bytes |
| Php.TwoDigitsSpec | classes/subtitle_extractor.php:228 | `%02d` of a number below 100 is two digits that read back as the number, the same as padding its decimal form |
| Php.IndexOfChar | classes/task/process_video_analysis.php:342 | the first position of the character |
| Php.Join | classes/subtitle_extractor.php:241 | `implode` of nothing is '' and of one item is the item |
| Php.Split | classes/external.php:638 | `explode` always yields at least one piece |
| Php.SplitSpec | classes/external.php:638 | no piece of `explode` contains the delimiter, and joining the pieces with it gives the text back |
| Php.SplitAt | classes/external.php:638 | text whose first delimiter follows `a` splits into `a`, then the pieces of the rest |
| Video.IdRunLength | classes/task/process_video_analysis.php:202-205 | the `[a-zA-Z0-9_-]+` run starting at a position: it stays inside the text, every character in it is an id character and it is maximal (the next character, if any, is not one) |
| Video.MatchFrom | classes/task/process_video_analysis.php:209 | the first position at or after the start where the pattern's literal is followed by at least one id character; none exactly when no such position exists |
| Video.Capture | classes/task/process_video_analysis.php:209-210 | the captured group is a non-empty run of id characters; nothing is captured exactly when the pattern matches nowhere in the text |
| Video.FirstMatching | classes/task/process_video_analysis.php:208-212 | the index of the first pattern that matches: every earlier pattern captures nothing and the chosen one captures something |
| Video.ExtractDriveFileId | classes/task/process_video_analysis.php:199-214 | no file id exactly when none of the four Drive patterns matches; a found id is a non-empty run of `[a-zA-Z0-9_-]` characters |
| Video.OpenIdSubsumed | classes/task/process_video_analysis.php:203-205 | whenever `open?id=` matches so does `id=`, so the fourth pattern is never the one that decides |
| Video.AfterLast | classes/task/process_video_analysis.php:342 | the text after the last delimiter is a suffix of the input that holds no delimiter |
| Video.AfterLastAvoids | classes/task/process_video_analysis.php:342 | a character absent from the input is absent from what follows the last delimiter |
| Video.Extension | classes/task/process_video_analysis.php:245 | an extension taken from the base name holds neither `.` nor `/` |
| Video.MimeFor | classes/task/process_video_analysis.php:343-354 | every extension, known or not, maps to a MIME type of the form `video/...` |
| Video.VideoMimetype | classes/task/process_video_analysis.php:331-355 | the sniffed type when it starts with `video/`, otherwise the type of the lower-cased extension of the original name; the answer always starts with `video/` |
| Video.AfterLastOf | classes/task/process_video_analysis.php:342 | the text after the last delimiter of `a + d + b` is `b` when `b` holds no delimiter |
| Video.ExtensionOf | classes/task/process_video_analysis.php:245 | a name `stem.ext` whose extension holds no dot or slash has extension `ext` |
| Video.MimetypeByExtension | classes/task/process_video_analysis.php:341-354 | when sniffing does not give a video type, the type of `stem.ext` is the table entry of the lower-cased `ext` |
| Video.MimetypeDefault | classes/task/process_video_analysis.php:354 | a name without extension and no sniffed type give `video/mp4` |
| Video.Swept | classes/task/process_video_analysis.php:363-391 | after the sweep a temp entry remains exactly when it is not a listed regular file older than the maximum age, and kept entries are unchanged |
| Video.SweptSpec | classes/task/process_video_analysis.php:378-389 | directories and files not older than the maximum age survive, and a second sweep with the same clock changes nothing |
| Video.BodyVerdict | classes/task/process_video_analysis.php:299-319 | a downloaded body is accepted exactly when it has between 1000 bytes and 2 GiB; it is rejected as too large exactly above 2 GiB |
| Video.DownloadVerdict | classes/task/process_video_analysis.php:237-319 | a download is accepted exactly when the disk has at least 3 GiB free (or the free space is unknown), the temp file opens and the body size is within the limits; the disk error is raised exactly when free space is below 3 GiB |
| Video.DownloadOutcome | classes/task/process_video_analysis.php:225-322 | the download returns the temp path `video_<unique>.<ext>` exactly when it is accepted; every failure is an `ai_error` |
| Video.TempName | classes/task/process_video_analysis.php:244-246 | the temp name is the unique id, a dot, then the file name's extension, or `mp4` when there is none or it is PHP-falsy |
| Video.DownloadKeepsReturnedFile | classes/task/process_video_analysis.php:279-321 | a successful download leaves the returned temp file holding the fetched body |
| Video.DownloadFailureCleanup | classes/task/process_video_analysis.php:299-319 | a too-small non-HTML body is reported but its temp file is left behind; an HTML error page and an oversized file are deleted; the too-small case arises exactly for a small body without `<html` |
| Video.RemoteOutcome | classes/task/process_video_analysis.php:158-182 | the remote part succeeds exactly when upload, processing wait, analysis and deletion of the uploaded file all succeed |
| Video.VideoOutcome | classes/task/process_video_analysis.php:137-191 | when no Drive file id is found, or the id is a falsy PHP string such as "0", the video task fails with the file-id message; a success implies an id, a successful download, and equals the remote outcome |
| Video.ZeroIdCapture | classes/task/process_video_analysis.php:198-211 | the Drive pattern captures "0" from `https://drive.google.com/file/d/0/view` |
| Video.ZeroFileIdRaises | classes/task/process_video_analysis.php:139-142 | that link's id "0" fails the `!$fileid` test: the task raises the file-id error and nothing is uploaded |
| Video.TaskAnswer | classes/task/process_video_analysis.php:74-88 | an unconfigured client fails with `ai_not_configured`; a recording with transcript text takes the transcript answer, otherwise the video path |
| Video.Host.constructor | classes/task/process_video_analysis.php:229-231 | the host starts with the given temp directory and set of uploaded files |
| Video.Host.CleanupOldTempFiles | classes/task/process_video_analysis.php:363-391 | the loop leaves the temp directory equal to the sweep of its old contents |
| Video.Host.DownloadFromDrive | classes/task/process_video_analysis.php:225-322 | the method returns the download outcome and leaves the temp directory as the download specification says |
| Video.Host.CheckDownload | classes/task/process_video_analysis.php:298-321 | the result is the path when the body is accepted and the matching `ai_error` otherwise; the temp file is removed exactly on the HTML and too-large paths |
| Video.Host.Analyze | classes/task/process_video_analysis.php:74-88 | the answer is the analysis answer (TaskAnswer), and only the video path touches the host |
| Video.Host.RemoteCalls | classes/task/process_video_analysis.php:158-182 | the result is the remote outcome; an uploaded file is deleted from the remote store on success and stays there when a later step fails |
| Video.Host.AnalyzeWithVideo | classes/task/process_video_analysis.php:137-191 | the result is the video outcome; a missing or falsy id leaves the temp directory and the remote store untouched; the `finally` block removes the downloaded temp file; the remote store loses the uploaded file on success and keeps it on failure |
| Video.Execute | classes/task/process_video_analysis.php:47-113 | a missing recording or analysis changes nothing; otherwise the analysis row is set to processing and then to the completed or failed row of the analysis answer, with the client's model |
| Video.Process | classes/task/process_video_analysis.php:69-112 | the recordings are unchanged and only the given analysis row is replaced, by the completed or failed row of the analysis answer |
| Gemini.NewClient | classes/gemini_client.php:51-55 | the client keeps the configured API key |
| Gemini.NewClientSpec | classes/gemini_client.php:51-64 | the client is configured exactly when AI is enabled and the API key is non-empty; the model is the configured one, or `gemini-1.5-flash` when that is empty, and never empty |
| Gemini.CallApi | classes/gemini_client.php:163-240 | the call returns the body exactly when curl reports no error and the HTTP status is 200; every failure is an `ai_error` |
| Gemini.CallApiOrder | classes/gemini_client.php:219-237 | a curl error wins over everything (`Connection error: ...`), then a missing status (`No response from API ...`), then another status, reported with the API's own error message or `HTTP error <code>` |
| Gemini.SkipSpace | classes/gemini_client.php:262 | the end of the `\s*` run starting at a position: all skipped characters are white space and the next one, if any, is not |
| Gemini.TrimRightSpace | classes/gemini_client.php:262 | a prefix of the text whose removed tail is all white space and whose last character is not |
| Gemini.NoFenceBefore | classes/gemini_client.php:262 | a piece lying before the first closing fence holds no fence, which is what the lazy `[\s\S]*?` captures |
| Gemini.FenceBodySpec | classes/gemini_client.php:261-264 | text without a fence yields no block; a captured block holds no fence and neither starts nor ends with white space |
| Gemini.Unfence | classes/gemini_client.php:258-264 | text without a fence is left as it is; otherwise the result is either the text itself or a body that holds no fence |
| Gemini.UnfenceIdempotent | classes/gemini_client.php:261-264 | removing the code fence a second time changes nothing |
| Gemini.UnfenceBlock | classes/gemini_client.php:261-264 | a text `pre ``` tag \s+ body \s+ ``` post`, whose `pre` holds no fence and does not end in a backtick, whose tag is empty or `json` and whose body holds no fence and neither starts nor ends with `\s`, is replaced by exactly its body |
| Gemini.FenceExample | classes/gemini_client.php:262-263 | the fenced block "```json\n{}\n```" unwraps to `{}` |
| Gemini.ParseAnalysisResponse | classes/gemini_client.php:249-254 | parsing fails exactly when the response has no candidate text, and then with `Invalid API response format` |
| Gemini.ExtractText | classes/gemini_client.php:296-303 | extraction fails exactly when the response has no candidate text, and then with `Invalid API response format` |
| Gemini.ParseAnalysisSpec | classes/gemini_client.php:249-287 | both readers fail on the same responses; text that does not decode becomes the summary with empty lists, empty transcript and language `en`; decoded fields are kept and missing ones get those same defaults |
| Gemini.ReadAnalysis | classes/gemini_client.php:266-286 | text that does not decode becomes the summary with empty key points and topics and language `en`; a decoded summary, language, key points or topics is kept, and a missing one takes its default |
| Gemini.AnalyzeVideo | classes/gemini_client.php:84-94 | the request fails with `ai_not_configured` without being sent exactly when the client is not configured |
| Gemini.GenerateSummary | classes/gemini_client.php:104-117 | the request fails with `ai_not_configured` without being sent exactly when the client is not configured |
| Gemini.AnalyzeVideoSpec | classes/gemini_client.php:84-94 | a configured client sends the request, and the analysis succeeds exactly when the call succeeds and the reply carries candidate text; every other failure is an `ai_error` |
| Gemini.TestConnection | classes/gemini_client.php:311-323 | the test passes exactly when the client is configured, the call succeeds and the body is non-empty |
| Cli.Decide | cli/process_transcripts.php:93-157 | a recording is skipped exactly when its analysis is completed, and is an error for a missing link exactly when it is not completed and has no link; a preview happens only on a dry run and a save only otherwise; both carry a transcript of at least 100 bytes |
| Cli.ScriptExtractor | cli/process_transcripts.php:52-57 | the script's extraction uses an available yt-dlp binary and the Spanish track |
| Cli.DecideIsExtract | cli/process_transcripts.php:100-150 | for a recording without a completed analysis, the script obtains a transcript exactly when the subtitle extractor would, and the same transcript |
| Cli.RowsOf | cli/process_transcripts.php:71 | the analysis rows joined to a recording are exactly the rows whose recording id is that recording, unchanged |
| Cli.RowsOfUpdate | cli/process_transcripts.php:163-181 | writing one analysis row that keeps its recording leaves the rows of every other recording as they were |
| Cli.CurrentKept | cli/process_transcripts.php:89 | a state that agrees on one recording keeps that recording's query row accurate |
| Cli.ListedRow | cli/process_transcripts.php:68-75 | the query row of a recording carries its id and describes the recording and its analysis row as stored |
| Cli.Pending | cli/process_transcripts.php:162-181 | the stored transcript row is pending, holds the transcript and the current time; an existing row keeps everything else, a new one starts empty with its creation time set to now |
| Cli.Finish | cli/process_transcripts.php:191-237 | with `--skip-gemini` or an unconfigured client the row stays as stored; a successful analysis completes it with summary, key points, topics, language (`es` when none), model and no error; a failed one marks it failed with the message |
| Cli.Apply | cli/process_transcripts.php:159-237 | one pass changes no other recording; only a save writes, and then the recording gets the transcript and its one analysis row ends as the final row |
| Cli.FitsPrefix | cli/process_transcripts.php:89 | every prefix of a listing of distinct current recordings is one too, and a recording is not visited before its turn |
| Cli.Run | cli/process_transcripts.php:89-246 | the loop keeps the tables consistent, keeps the set of recordings and leaves every recording it does not visit untouched |
| Cli.SameTrans | cli/process_transcripts.php:89 | agreement on a recording carries over from one pass to the next |
| Cli.VisitsLast | cli/process_transcripts.php:89 | a recording not in the listing is neither its last row nor in the rest |
| Cli.Tally.Count | cli/process_transcripts.php:94-155 | each recording increments exactly one of the three counters |
| Cli.Counted | cli/process_transcripts.php:82-249 | the counters add up to the number of recordings handled |
| Cli.Steps | cli/process_transcripts.php:89-157 | one decision per listed recording, in the listing's order |
| Cli.NoSaveWritesNothing | cli/process_transcripts.php:93-157 | a run in which no recording reaches the save leaves both tables unchanged |
| Cli.DryRunWritesNothing | cli/process_transcripts.php:152-157 | `--dry-run` writes nothing to the database |
| Cli.StoredRows | cli/process_transcripts.php:159-237 | after a save the recording has exactly one analysis row, the final one |
| Cli.FinalRowSame | cli/process_transcripts.php:159-237 | the final row of a recording depends only on that recording's own state |
| Cli.RunStores | cli/process_transcripts.php:159-237 | after the whole run every saved recording holds its transcript and exactly one analysis row, its final row |
| Cli.RunLeavesOthers | cli/process_transcripts.php:89-246 | a recording that the run visits without saving is left exactly as it was |
| Cli.RunStep | cli/process_transcripts.php:89 | running one more row is one more pass on the state the earlier rows left |
| Cli.CountedStep | cli/process_transcripts.php:90-155 | counting one more step increments the earlier counters by that step |
| Cli.DecideStep | cli/process_transcripts.php:93-157 | the loop body's checks give the decision the specification states |
| Cli.Listing | cli/process_transcripts.php:59-75 | the selected recordings become one accurate query row each, in order |
| Cli.Write | cli/process_transcripts.php:159-237 | the database afterwards is the pass's writes applied to the old tables |
| Cli.RunGemini | cli/process_transcripts.php:191-237 | only the recording's analysis row changes, and it becomes its finished row |
| Cli.Pass | cli/process_transcripts.php:90-245 | after handling row `i` the tables are those of the run over the first `i + 1` rows |
| Cli.ProcessTranscripts | cli/process_transcripts.php:46-249 | the script stops before the loop exactly when the activity id is missing, yt-dlp is absent or nothing is selected, and then writes nothing; otherwise its counters add up to the number of recordings and it leaves the tables of the run |
| Cli.Loop | cli/process_transcripts.php:82-246 | the counters are those of the decisions taken, and the tables are those of the run over every row |
| AnalysisText.GatherNoEmpty | classes/external.php:639-648 | when every piece yields only non-empty items, the gathered list holds no empty item |
| AnalysisText.GatherEach | classes/external.php:639-648 | when each piece yields exactly its own item, the gathered list is those items in order |
| AnalysisText.BulletRun | classes/external.php:643 | the length of the leading run of bullet characters: all of them are bullet characters and the next one is not |
| AnalysisText.StripBullets | classes/external.php:643 | removing the leading bullets and the spaces after them leaves a suffix of the line; a line that does not start with a bullet character is unchanged |
| AnalysisText.KeyPoint | classes/external.php:640-646 | a line yields at most one key point, and never an empty one |
| AnalysisText.KeyPointOf | classes/external.php:639-648 | the per-line step of the loop is the key-point function of one line |
| AnalysisText.KeyPoints | classes/external.php:636-649 | the parsed key-point list holds no empty entry |
| AnalysisText.ParseKeyPoints | classes/external.php:636-649 | the loop over the lines collects exactly the key points of the text |
| AnalysisText.BulletClasses | classes/external.php:643 | neither the intended nor the as-written bullet class contains the space or any byte that trim() removes, so trimming and bullet stripping do not interfere |
| AnalysisText.MarkedPointKept | classes/external.php:640-646 | a clean point written behind any run of bullet characters and a space is read back as exactly that point |
| AnalysisText.TrimKeeps | classes/external.php:640 | trimming a text that neither starts nor ends with white space changes nothing |
| AnalysisText.BulletRunOver | classes/external.php:643 | the bullet run of a marker followed by a non-bullet is the marker |
| AnalysisText.SkipSpacesNone | classes/external.php:643 | `\s*` skips nothing before a non-space |
| AnalysisText.CleanPointKept | classes/external.php:640-646 | a clean point on its own line is kept as it is |
| AnalysisText.SplitJoinLines | classes/external.php:638 | splitting lines joined by newlines, none of which holds a newline, gives back the lines |
| AnalysisText.KeyPointsRoundTrip | classes/external.php:636-649 | key points written one per line are parsed back to the same list |
| AnalysisText.BulletAsWrittenLeavesBytes | classes/external.php:643 | as written; see Findings: with the bullet class as written, a point behind the UTF-8 bullet `•` keeps the bullet's last two bytes |
| AnalysisText.StripAfterRun | classes/external.php:643 | stripping a bullet marker from text that continues with a non-space, non-bullet character leaves that text |
| AnalysisText.BulletStripped | classes/external.php:643 | with the intended class, a point behind the bullet `•` and a space is read back as exactly that point |
| AnalysisText.FirstSeparator | classes/external.php:655 | the position of the first comma or newline, with none before it; none when the text holds neither |
| AnalysisText.RunEnd | classes/external.php:655 | the end of the run of separators starting at a position: all skipped characters are separators and the next one, if any, is not |
| AnalysisText.SplitRuns | classes/external.php:655 | `preg_split('/[,\n]+/')` gives at least one piece, and no piece contains a comma or newline |
| AnalysisText.Topic | classes/external.php:657-660 | a piece yields at most one topic, and never an empty one |
| AnalysisText.Topics | classes/external.php:652-662 | the parsed topic list holds no empty entry |
| AnalysisText.ParseTopics | classes/external.php:652-662 | the loop over the pieces collects exactly the topics of the text |
| AnalysisText.SplitRunsAt | classes/external.php:655 | splitting `a,b` where `a` holds no separator and `b` does not start with one gives `a`, then the pieces of `b` |
| AnalysisText.Spaced | classes/external.php:655-657 | each topic preceded by the space that `, ` leaves behind the comma |
| AnalysisText.JoinedAfter | classes/external.php:655 | the topics each preceded by `, `, empty for no topics |
| AnalysisText.JoinedAfterCons | classes/external.php:655 | the joined tail unfolds one topic at a time |
| AnalysisText.SpacedNoSeparator | classes/external.php:655 | a clean topic behind a space still holds no separator |
| AnalysisText.LeadJoined | classes/external.php:655 | the first separator after the lead is the comma of `, ` |
| AnalysisText.SpacedCons | classes/external.php:655-657 | the spaced topics unfold one topic at a time |
| AnalysisText.SplitJoinTopics | classes/external.php:655 | splitting a lead followed by `, `-separated clean topics gives the lead and the topics each behind a space |
| AnalysisText.SpacedTopic | classes/external.php:657-660 | a clean topic is read back as itself, with or without the space in front |
| AnalysisText.TopicsRoundTrip | classes/external.php:652-662 | clean topics joined with `, ` are parsed back to the same list |
| AnalysisText.JoinedHead | classes/external.php:655 | a non-empty `, `-joined list is its first topic followed by the joined tail, and is not empty |
| AnalysisText.TopicsOfPieces | classes/external.php:652-662 | when the split pieces each yield their topic, the parsed list is those topics |
| AnalysisText.PiecesAreTopics | classes/external.php:657-660 | each piece of a joined clean list yields its own topic |

## Left out

- HTTP calls (Gemini `call_api`, the Drive download, the subtitle downloads, the Drive REST listing) are not performed. Their replies are inputs: status code, curl errno, body.
- The confirm-token re-request of `download_from_drive` (process_video_analysis.php:266-276) is left out. It changes only the URL of the second request, whose reply is an input either way.
- The Gemini upload, processing wait, file-grounded analysis, remote delete and `analyze_transcript` are not modelled, because their bodies are not part of this model. Their outcomes are inputs that may raise.
- Shell and filesystem calls are not modelled: yt-dlp, `disk_free_space`, `finfo`, `mkdir`, `fopen`, `unlink`, `scandir`, `filemtime`. The temp directory is a map from names to entries; free space, sniffed type and modification times are inputs.
- JSON encoding and decoding, XML parsing and `html_entity_decode` are abstract functions given as parameters. Key points and topics are stored as lists rather than JSON text.
- Timezones are not modelled. `strtotime('midnight')`, `usergetdate` and `make_timestamp` are replaced by UTC day arithmetic on integer timestamps.
- Floating point is not modelled. Caption `start` times and `durationMillis / 1000` are natural seconds; PHP's `%` truncates to an integer, so the minute marks and clock fields are the same for non-negative input. The `round()` of `googlemeet_format_time_diff` is written out for non-negative integers.
- LocalLib.RecurringEvents: requires a recurrence period of at least one week. With period 0 the PHP loop never ends.
- LocalLib.ConstructEvents: requires a recurrence period of at least one week when recurrence is on, for the same reason.
- Lib.StaleRows: uses strict comparison of Drive ids. `in_array` at lib.php:390 is loose, which only differs for numeric-looking strings.
- `$DB->get_record` on several matching rows is not modelled. The analysis table's unique key rules this out, and the model keeps that key as an invariant.
- Rows that tie on the `ORDER BY` column keep their id order. The database leaves that order open.
- The following are not modelled: lang strings and rendering (the `googlemeet_print_*` output, templates, notifications), `mtrace`/`cli_writeln` logging, `sleep(2)` rate limiting, capability checks, `validate_parameters`, and the adhoc-task scheduler's own execution of queued jobs.
- OAuth, login and callback handling, and `create_meeting_event` in classes/client.php are not modelled; they are network and rendering code.
- Schema migration in db/upgrade.php is not modelled. Only its unique key is kept, as `Store.Database.Valid`.
- Php.Trim: its own contract says only that the text never grows. Php.TrimSpec proves the exact effect separately, because the model trims inside almost every string operation and the full contract would be paid for at each use.
- Php.TrimLeft: the same as Php.Trim; Php.TrimLeftSpec proves the exact effect.
- Php.TrimRight: the same as Php.Trim; Php.TrimRightSpec proves the exact effect.

## Findings

| source | as written | input that shows it | evidently intended | confidence | as-written member | corrected member |
|---|---|---|---|---|---|---|
| classes/subtitle_extractor.php:35,45-57 | `find_ytdlp()` returns null when no binary is found, and that null is assigned to the typed `string` property, which raises a TypeError in the constructor; `is_available()` can then never return false | no yt-dlp binary on any candidate path | the extractor is built and reports itself unavailable | high (not executed) | Subtitles.NewExtractorAsWritten, Subtitles.AsWrittenNeverUnavailable | Subtitles.NewExtractor, Subtitles.NewExtractorAvailable |
| classes/external.php:117-125, lib.php:389-406 | `$deleterecordings['id']` is overwritten in the loop, so only the last stale recording is deleted per sync | two stored recordings of the activity whose Drive ids are both missing from the incoming files | every stale recording is deleted | high (not executed) | RecordingSync.DeleteLastStale, RecordingSync.EarlierStaleSurvives, Lib.DeleteStaleAnalysesAsWritten, Lib.EarlierStaleAnalysisSurvives | RecordingSync.DeleteAllStale, RecordingSync.DeleteAllStaleClears, RecordingSync.SyncKeepsOnlyIncomingFiles |
| classes/external.php:643 | the bullet class holds the bytes C3 A2 E2 82 AC C2 A2 (the bullet `•` encoded twice), so of the real bullet E2 80 A2 only E2 is stripped | the key point line `• point` | the bullet is removed and `point` is stored | high (not executed) | AnalysisText.BulletAsWrittenLeavesBytes | AnalysisText.BulletStripped, AnalysisText.KeyPointsRoundTrip |
| locallib.php:368 | the dots in `meet.google.com` are unescaped and match any character | `meetXgoogleYcom/abc-defg-hij` | only the host `meet.google.com` is accepted | medium (not executed) | LocalLib.ClearUrlAsWritten, LocalLib.LookalikeHost | LocalLib.ClearUrl, LocalLib.ClearUrlIdempotent |
| locallib.php:263-281 | `ceil()` returns a float, so a page past the last one is clamped to a float and `$i === $page` marks no link active | 2 pages with page 5 requested | the last page is shown and its link is active | medium (not executed) | LocalLib.ClampedPageAsWritten, LocalLib.PastLastPageNoActiveLink | LocalLib.Paginate, LocalLib.PageLinks |
