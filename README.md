# Job-search tracker: pipeline, follow-up and feed-import rules in Dafny

This project models the core of a personal job-search tracker. The tracker keeps job
opportunities moving through a fixed eight-stage pipeline (Prospect … Closed). It also keeps
the contacts reached for each opportunity, with a Day 0 / Day 3 / Day 7 outreach cadence, and
an append-only activity log. The model covers:

- the stage vocabulary and job families of `config.py`;
- the workflow engine as its tests pin it: next actions, stage transitions, the follow-up queue,
  staleness, the today queue and the pipeline summary;
- the state-changing commands of `main.py`: `add-job`, `send-outreach`, `follow-up`, `advance`
  and `export`;
- the POST handlers and derived views of `web/routes.py`;
- the activity log of `models/activity.py`;
- the query builders and defaults of `contact.py`;
- feed import in `modules/job_feed.py`: the title heuristic, tag stripping, the settings file
  and the `poll_feeds` loop;
- source classification and text cleaning in `ingester.py`.

The SQLite database is the class `Tables.Store`. Its three tables are `seq` fields in rowid
order, next to the id counters SQLite keeps. `Store.Valid()` says that ids increase strictly
along every table and stay below their counter, and that every opportunity row obeys the stage
rules. Every method that writes keeps `Valid()`. Most of them state their whole new state row
by row. The feed poll states it through a ghost run of per-item fates instead: each item's fate
is the one it has against the rows stored before it, earlier rows and log entries are kept, and
the new rows are those of the added items, in order, each a fresh feed row. Relations that span several calls
are stated as lemmas. Days are integers, and "today" is always a parameter.

Each module outside the core has its own stand-in:

- `modules/workflow.py` is not part of this model. Its rule tables are the injected
  `Workflow.EngineConfig`: the next-action table, the Stage Change text and the follow-up label.
  `Workflow.WellFormed` states what `tests/test_workflow.py` asserts about them. It adds two
  cadence rules that no test checks and that this model assumes: Day 7 is due whether or not
  Day 3 was sent, and nothing is due once both were sent. The workflow functions follow the
  contract that the tests and their callers rely on.
- `models/opportunity.py` and `db/database.py` are not part of this model. They are modelled as
  the Store's insert, update and delete operations.
- The JSON module is the injected `Values.JsonCodec`.
- Downloads, XML parsing and HTML text extraction are injected functions. So are the AI scorer
  and the AI extractor.

Modules: `Wrappers`, `Text` (strip, ASCII lowercase, search, split and join, integer
text), `Values`, `Config`, `Tables`, `Activity`, `Contacts`, `Workflow`, `Cli` (main.py),
`Routes` (web/routes.py), `JobFeed`, `Ingester`.

## Model

| member | source | states |
|---|---|---|
| Config.StageIndex | config.py:25-29 | the position of a stage in STAGE_ORDER is the first index holding it |
| Config.StageOrderDistinct | config.py:25-29 | STAGE_ORDER has exactly eight stages and no two are equal |
| Config.StageOrderEnds | config.py:26-28 | "Prospect" is first (index 0) and "Closed" is last (index 7) |
| Config.AppliedPosition | config.py:26-27 | "Applied" is at index 2, after "Prospect" and "Warm Lead" and before "Recruiter Screen" |
| Config.JobFamilyLabels | config.py:16-22 | JOB_FAMILIES has exactly the keys A–E, each with a different label |
| Workflow.CalculateNextAction | tests/test_workflow.py:110-118 | succeeds exactly for stages in the table, otherwise InvalidStage; under a well-formed table every non-terminal stage gets non-empty text and a positive day count |
| Workflow.NextActionAllStages | tests/test_workflow.py:110-118 | every stage of STAGE_ORDER except "Closed" has non-empty action text and a positive day count |
| Workflow.Advanced | tests/test_workflow.py:83-108 | the row takes the new stage; `date_applied` is set on first reaching Applied or later and never changed after; a move to Closed stamps `date_closed` with today and keeps the next action; the stage rules are preserved |
| Workflow.AdvancedNextAction | tests/test_workflow.py:83-90 | a move to a non-terminal stage sets that stage's next action, due the table's days after today |
| Workflow.AdvanceAppliedIdempotent | tests/test_workflow.py:83-90 | once a move has set `date_applied`, no later move changes it |
| Workflow.AdvanceStage | tests/test_workflow.py:83-108 | NotFound for an unknown id and InvalidStage for a stage outside the vocabulary, both writing nothing; otherwise that one row becomes `Advanced(...)` and exactly one Stage Change entry is appended |
| Workflow.StageChangeNamesStage | tests/test_workflow.py:92-99 | the Stage Change description contains the new stage's name |
| Workflow.FollowupQueue | tests/test_workflow.py:40-79 | the queue has at most as many items as there are contacts; one item per contact is `QueueOnePerContact` |
| Workflow.ItemFor | tests/test_workflow.py:47-49 | the item carries the contact's id, its opportunity id and the given reason |
| Workflow.QueueIdsAbove | tests/test_workflow.py:40-79 | when every contact id exceeds a bound, so does every queue item's contact id |
| Workflow.QueueIdsAscending | tests/test_workflow.py:40-79 | over a well-formed contacts table the queue items' contact ids strictly increase |
| Workflow.QueueOnePerContact | tests/test_workflow.py:40-79 | over a well-formed contacts table no two queue items belong to the same contact |
| Workflow.QueueHasDue | tests/test_workflow.py:43-61 | every contact due for a follow-up has its item in the queue |
| Workflow.QueueSource | tests/test_workflow.py:63-79 | every queue item is the item of a due contact, with that contact's reason |
| Workflow.NotDueNotQueued | tests/test_workflow.py:63-79 | a contact that is not due has no item in the queue, since contact ids are distinct |
| Workflow.ItemsFor | tests/test_workflow.py:49 | keeps exactly the queue items of the given opportunity |
| Workflow.QueueForOpportunity | tests/test_workflow.py:48-50 | a due contact that is the only one of its opportunity gives that opportunity at least one item, and every such item is that contact's |
| Workflow.Day3ContactQueued | tests/test_workflow.py:43-51 | a Pending contact with Day 0 three days ago and nothing sent is queued with a reason containing "Day 3" |
| Workflow.Day7ContactQueued | tests/test_workflow.py:53-61 | a Pending contact with Day 0 seven days ago and no Day 7 message is queued with a reason containing "Day 7"; the test builds this with Day 3 unset, and the lemma also covers Day 3 sent, under the assumed cadence rule in `WellFormed` |
| Workflow.ExhaustedNotQueued | main.py:330-340 | once `follow-up` has stamped both Day 3 and Day 7, the contact is never queued again; that nothing is due then is an assumed cadence rule in `WellFormed`, not tested |
| Workflow.RespondedNotQueued | tests/test_workflow.py:63-70 | a contact whose status is not Pending is never queued |
| Workflow.FreshNotQueued | tests/test_workflow.py:72-79 | a contact whose Day 0 is today is not queued |
| Workflow.ReferenceCadence | tests/test_workflow.py:43-61 | a follow-up reason exists exactly when seven days have passed without Day 7 or three without Day 3; the Day 7 reason takes precedence |
| Workflow.ReferenceCadenceWellFormed | tests/test_workflow.py:43-79 | the reference cadence meets every fact the tests pin and the two assumed cadence rules |
| Workflow.WellFormed | tests/test_workflow.py:40-118 | the facts the tests pin about the injected rules: every non-terminal stage has non-empty text and positive days; the Stage Change text names the stage; three days with nothing sent is "Day 3"; seven days with nothing sent is "Day 7"; Day 0 today is not due. Assumed in addition, not tested: seven days without Day 7 is "Day 7" whether or not Day 3 was sent, and nothing is due with both sent |
| Workflow.StaleRecords | tests/test_workflow.py:121-140 | InvalidThreshold exactly for a window of zero or less; otherwise exactly the non-terminal opportunities not updated for `days_stale` days |
| Workflow.StaleFilter | tests/test_workflow.py:121-140 | keeps exactly the stored opportunities that are stale |
| Workflow.StaleAfterTenDays | tests/test_workflow.py:122-134 | an opportunity untouched for ten days is flagged under a seven-day window |
| Workflow.FreshNotStale | tests/test_workflow.py:136-140 | an opportunity updated today is never flagged |
| Workflow.DueFilter | web/routes.py:20 | keeps exactly the non-terminal opportunities whose next action date is today or earlier |
| Workflow.InsertByDue | web/routes.py:20 | inserting into the queue adds exactly that one row |
| Workflow.InsertSorted | web/routes.py:20 | inserting into a run sorted by due date, then tier, keeps it sorted |
| Workflow.SortByDue | web/routes.py:20 | the sorted queue is a permutation of its input |
| Workflow.SortSorted | web/routes.py:20 | the sorted queue is ordered by due date, then tier |
| Workflow.TodayQueue | web/routes.py:20 | the today queue is a permutation of the due opportunities |
| Workflow.TodayQueueSpec | web/routes.py:20 | it holds exactly the due opportunities, as many rows as the due filter keeps, sorted by due date and then tier |
| Workflow.PipelineSummary | web/routes.py:21 | every row names a stage, with a count of at least one that equals its number of opportunities |
| Workflow.PipelineSummaryComplete | web/routes.py:21 | every stage with at least one opportunity has its row |
| Workflow.PipelineSummaryTotal | web/routes.py:21 | the counts add up to the number of stored opportunities |
| Tables.FindOpp | web/routes.py:104 | finds the index of the opportunity with that id, or None when no row has it (through `FindRow`) |
| Tables.FindContact | contact.py:60-64 | finds the index of the contact with that id, or None when no row has it (through `FindRow`) |
| Tables.FindRow | contact.py:60-64 | the lookup by primary key: an index whose row has the id, or None when no row has it |
| Tables.InsertOpportunity | modules/job_feed.py:165-175 | stores the row under the next id and returns that id; earlier rows are unchanged |
| Tables.UpdateOpportunity | web/routes.py:108 | replaces exactly the one row, keeping its id |
| Tables.DeleteOpportunity | modules/job_feed.py:190 | removes exactly the one row |
| Activity.StoredMetadata | models/activity.py:44 | stores the JSON text exactly when the metadata is truthy, and NULL otherwise |
| Activity.LogActivity | models/activity.py:36-50 | appends exactly one row with the given type, text and ids under the next id, returns that id, and changes no existing row |
| Activity.GetActivityLog | models/activity.py:53-66 | returns only matching log rows, at most `limit` of them |
| Activity.Taken | models/activity.py:56-63 | a LIMIT keeps `limit` rows, or every row when the limit is negative or larger than the table |
| Activity.ActivityLogNewest | models/activity.py:53-66 | the result is exactly the `limit` newest matching rows, newest first; an opportunity id of 0 still filters |
| Activity.ActivityLogDescending | models/activity.py:56-62 | over a well-formed log, ids strictly decrease along the result |
| Activity.ToDict | models/activity.py:24-31 | the record's fields unchanged, plus `metadata_parsed` exactly when the metadata is non-empty: the decoded value, or {} when decoding fails |
| Contacts.NewContact | contact.py:9-28 | a new contact is Pending, with all three flags false and no outreach dates |
| Contacts.CreateContact | contact.py:40-57 | appends the new contact under the next id and returns that id |
| Contacts.GetContact | contact.py:60-64 | the contact with that id, or None exactly when no row has it |
| Contacts.Assignments | contact.py:70 | one "column = ?" per field, in argument order |
| Contacts.Params | contact.py:71 | one bound value per field, in argument order |
| Contacts.UpdateQuery | contact.py:67-74 | no statement exactly when there are no fields; otherwise the text is "UPDATE contacts SET ", the `Assignments` joined by ", ", then " WHERE id = ?"; the parameters are the values and then the id, one per "?" |
| Contacts.PlaceholdersInSet | contact.py:70 | the SET clause holds one "?" per field |
| Contacts.UpdateMarks | contact.py:72-73 | the UPDATE statement holds one more "?" than its SET clause, for the id |
| Contacts.UpdatedRows | contact.py:72-73 | only the row with that id changes, and it gets the fields in order |
| Contacts.UpdateContact | contact.py:67-74 | with no fields nothing is written; otherwise the table becomes `UpdatedRows` |
| Contacts.ListConditions | contact.py:78-85 | the opportunity condition comes first and applies whenever an id is given, 0 included; the status condition applies only when the status is non-empty |
| Contacts.ListContactsQuery | contact.py:77-91 | a WHERE clause exactly when a filter applies, with the conditions joined by " AND " and as many parameters as placeholders |
| Contacts.PlaceholdersInWhere | contact.py:86 | the WHERE clause holds one "?" per condition |
| Contacts.SelectMarks | contact.py:88 | the fixed text around the WHERE clause holds no "?" |
| Contacts.ListContacts | contact.py:87-92 | returns only stored contacts that pass the filters |
| Contacts.ListContactsComplete | contact.py:87-92 | every stored contact that passes the filters is returned |
| Contacts.ListContactsNewestFirst | contact.py:88 | over a well-formed table the listing is newest first: ids strictly decrease along the result |
| Contacts.ContactsForOpportunity | contact.py:95-96 | exactly the contacts of that opportunity; [] exactly when there are none |
| Cli.NewJob | main.py:123-141 | the new row is a Prospect with the Prospect next action due `days` after today; the keywords are stored as JSON; an empty salary is NULL |
| Cli.NewJobDueLater | main.py:125-126 | under a well-formed table, the new job's next action is non-empty and due strictly after today |
| Cli.AddJob | main.py:125-147 | one new opportunity and exactly one Note Added entry for it; a failed next-action lookup writes nothing |
| Cli.DayZeroMark | main.py:291 | the Day 0 mark sets Day 0 to today and the status to Pending, and nothing else |
| Cli.MarkedNotDueToday | main.py:289-299 | a contact just marked, with no follow-ups sent, is not due the same day |
| Cli.SendOutreach | main.py:256-297 | an unknown contact or a failed draft writes nothing; a declined confirmation writes nothing; a confirmed one applies the Day 0 mark and logs one Outreach Sent entry |
| Cli.AnswerEntry | main.py:342-356 | "sent" and "responded" log exactly one entry about the item's contact and opportunity, Follow-Up Sent or Response Received; the other answers log none |
| Cli.SentStampsOneField | main.py:330-347 | "sent" stamps Day 7 from six days after Day 0 and Day 3 before, never both, and the entry names the field it stamped |
| Cli.NoDayZeroStampsDay3 | main.py:332-335 | a contact with no Day 0 counts as 0 days, so "sent" stamps Day 3 |
| Cli.WriteRuleAheadOfLabel | main.py:336 | the write rule and the queue label are separate rules: six days after Day 0 "sent" stamps Day 7 while the reference label still says Day 3 |
| Cli.ApplyAnswers | main.py:317-362 | answering never adds, removes or renumbers a contact |
| Cli.QuietAnswersLogNothing | main.py:358-362 | answering only "skip" and "no-response" logs nothing |
| Cli.AnswerEntriesCount | main.py:342-356 | exactly one entry is logged per "sent" or "responded" answer |
| Cli.AnswerItem | main.py:329-362 | one answer applies its contact update and appends its entry, if any, leaving earlier rows alone |
| Cli.FollowUp | main.py:309-362 | the queue is read once; the answers are applied in queue order and their entries logged in that order; no earlier log row changes |
| Cli.Advance | main.py:373-379 | a stage outside STAGE_ORDER is refused before the engine runs, writing nothing; otherwise the command is `advance_stage` with an empty note passed as no note |
| Cli.ExportColumns | main.py:496-497 | the columns are exactly the keys not ending in "_parsed" or "_list" |
| Cli.ExportColumnsConcat | main.py:496-497 | the filter keeps the keys' order |
| Cli.ExportColumnsNoRepeats | main.py:496-497 | filtering keys that do not repeat gives columns that do not repeat |
| Cli.ExportRow | main.py:503 | a row holds exactly the record's values for the exported columns |
| Cli.Export | main.py:489-503 | no file without opportunities; otherwise the columns are the first record's keys minus the `_parsed` and `_list` ones, in order and without repeats, and there is one row per record |
| Routes.StageCounts | web/routes.py:24 | the keys are exactly the rows' stages, and the last row's count is what its stage maps to |
| Routes.StageCountsFromRow | web/routes.py:24 | every key holds the count of one of its rows |
| Routes.StageCountsOfSummary | web/routes.py:21-24 | on the pipeline summary, the map sends exactly the occupied stages to their number of opportunities |
| Routes.FollowupIds | web/routes.py:127 | exactly the contact ids in the queue |
| Routes.FollowupIdsAreDue | web/routes.py:126-127 | an id is highlighted exactly when a contact with that id is due for a follow-up |
| Routes.AdvanceOpp | web/routes.py:93-97 | the engine runs exactly when the submitted stage is non-empty, with no vocabulary check of its own, and gets the note or None |
| Routes.NoteArg | web/routes.py:95-97 | `note or None`: None exactly for a missing or empty note |
| Routes.AppendedToEmpty | web/routes.py:105-107 | with no earlier notes, the notes become "[date] note" |
| Routes.AppendedEndsWithNote | web/routes.py:107 | whatever the earlier notes, the new notes end with the stripped note |
| Routes.AddNote | web/routes.py:101-113 | an empty stripped note writes nothing; otherwise the notes get the dated note appended, `updated_at` becomes today, and one Note Added entry holding the note is logged |
| Routes.ResponseStatus | web/routes.py:137 | the status defaults to "Responded" when the field is missing |
| Routes.MarkResponse | web/routes.py:136-145 | the contact's status is written and one Response Received entry is always logged, with the contact's opportunity or none |
| Routes.MarkResponseRow | web/routes.py:138 | only the contact with that id changes, and only its status |
| JobFeed.FindSep | modules/job_feed.py:105 | the first separator at or after the given index that has a character after it |
| JobFeed.SplitTitleCompany | modules/job_feed.py:93-108 | both halves are stripped and together no longer than the title |
| JobFeed.SplitAtIndex | modules/job_feed.py:101-104 | the first " at ", in any case, splits the title into the stripped text before and after it |
| JobFeed.SplitAmpIndex | modules/job_feed.py:101-104 | without " at ", the title splits on its first case-insensitive " @ " into the stripped halves |
| JobFeed.SplitAtRoundTrip | modules/job_feed.py:96 | "role at company" splits back into its halves when the role holds no " at " |
| JobFeed.SplitPipeRoundTrip | modules/job_feed.py:97 | "role \| company" splits back into its halves when there is no " at " or " @ " and the role holds no separator |
| JobFeed.SplitSepIndex | modules/job_feed.py:105-107 | with no " at " or " @ ", the first separator after the first character splits the title |
| JobFeed.SplitPlainTitle | modules/job_feed.py:108 | a title with no " at ", " @ " or separator is all role, with an empty company |
| JobFeed.StripHtml | modules/job_feed.py:89-90 | the result is stripped |
| JobFeed.ReplaceTagsFree | modules/job_feed.py:90 | no tag is left after the substitution |
| JobFeed.TagFreeUnchanged | modules/job_feed.py:90 | text with no tag is left unchanged by the substitution |
| JobFeed.StripHtmlTagFree | modules/job_feed.py:89-90 | the result holds no tag |
| JobFeed.StripHtmlIdempotent | modules/job_feed.py:89-90 | stripping twice gives the same as stripping once |
| JobFeed.StripHtmlOfClean | modules/job_feed.py:89-90 | stripped text with no tag is its own result |
| JobFeed.StripHtmlPlain | modules/job_feed.py:89-90 | text without '<' only loses its surrounding whitespace |
| JobFeed.JdRawPlain | modules/job_feed.py:162 | a plain, stripped, non-empty description is the `jd_raw` itself |
| JobFeed.Collected | modules/job_feed.py:45-75 | every collected item has a non-empty stripped link and stripped title and description |
| JobFeed.CollectedComplete | modules/job_feed.py:48-56 | every entry with a non-blank link gives its item |
| JobFeed.BlankLinkDropped | modules/job_feed.py:49-51 | an entry with a blank link gives no item |
| JobFeed.FeedItems | modules/job_feed.py:31-43 | every item is clean; a failed download or parse gives [] |
| JobFeed.FetchFeed | modules/job_feed.py:31-75 | returns the document's items for the stripped URL, and [] on failure |
| JobFeed.CollectEntries | modules/job_feed.py:48-56 | appends each entry's item in order, when there is one |
| JobFeed.LoadFeedConfig | modules/job_feed.py:220-237 | the URLs are non-empty stripped lines and the keywords non-empty stripped comma-free parts; a missing or malformed file gives the defaults |
| JobFeed.LoadUrlsOnly | modules/job_feed.py:227 | the URLs are the cleaned lines of the setting |
| JobFeed.LoadKeywordsOnly | modules/job_feed.py:228 | the keywords are the cleaned comma-separated parts of the setting |
| JobFeed.FeedUrlsRoundTrip | modules/job_feed.py:227 | a URL list written one per line is read back as written |
| JobFeed.FeedKeywordsRoundTrip | modules/job_feed.py:228 | a keyword list written comma-separated is read back as written |
| JobFeed.FeedMinScoreText | modules/job_feed.py:230-233 | a minimum score written as decimal text is read as that number |
| JobFeed.Keywords | modules/job_feed.py:135 | the keywords are the stripped non-blank filter entries, lowercased |
| JobFeed.FeedOpportunity | modules/job_feed.py:161-175 | the row is a Prospect from source Other with the item's link, a non-empty company ("Unknown" by default), the `jd_raw` and the next action due `days` out |
| JobFeed.ItemFate | modules/job_feed.py:147-215 | an item is skipped exactly when it misses the keywords or its link is already stored; it is filtered only when scoring is on with a positive threshold; an added item's title is `NewTitle`: the company ("?" when none), an em dash, then the role |
| JobFeed.FateEntries | modules/job_feed.py:176-206 | a skipped or failed item logs nothing; a created one logs its Note Added entry, and a scored, kept one also logs an AI Action entry |
| JobFeed.Scored | modules/job_feed.py:197-201 | the score is stored only when there is one, and the row's id, stage, link and source never change |
| JobFeed.CreateRow | modules/job_feed.py:165-180 | one row under the next id and its Note Added entry |
| JobFeed.ImportFiltered | modules/job_feed.py:188-196 | a row scored below the threshold is deleted again; only its Note Added entry remains |
| JobFeed.ImportKept | modules/job_feed.py:197-211 | a kept row is stored with its score and summary when there is a score, and logged |
| JobFeed.ScoreLastRow | modules/job_feed.py:197-206 | the last row gets its score and summary and one AI Action entry, only when there is a score |
| JobFeed.ImportItem | modules/job_feed.py:148-215 | one item's fate is `ItemFate`; only an added item leaves a row; its log entries are `FateEntries`; earlier log rows stay |
| JobFeed.Count | modules/job_feed.py:141-215 | counting keeps one title per added item: `added` grows exactly for an added fate, and the surplus of titles over `added` is kept |
| JobFeed.CountOnce | modules/job_feed.py:151-212 | a fate adds one to its own counter only, and an added fate appends its title |
| JobFeed.Tally | modules/job_feed.py:141-212 | counting a run of fates from zero gives one new title per added fate |
| JobFeed.TallyProcessed | modules/job_feed.py:141-215 | the four counters add up to the number of fates |
| JobFeed.TallyTitles | modules/job_feed.py:210-212 | the new titles are the added fates' titles, in order |
| JobFeed.TallyUnfiltered | modules/job_feed.py:188-196 | a run with no filtered fate has a filtered count of zero |
| JobFeed.TallySnoc | modules/job_feed.py:147-215 | counting one more fate extends the tally by that fate |
| JobFeed.FateOrDuplicate | modules/job_feed.py:156-159 | an item's fate is its fate against a store without its link, or a skip for a link the store holds |
| JobFeed.FatesMeaning | modules/job_feed.py:151-215 | in a fitting run, a keyword miss is skipped; a skip is a keyword miss or a stored link; an error is a failed create; a filtered item was scored with a positive threshold and fell below it; an added item was created and its title is `NewTitle` |
| JobFeed.NoScoreNotes | modules/job_feed.py:182-206 | with scoring off an item logs Note Added entries only |
| JobFeed.OnlyNotesJoin | modules/job_feed.py:176-206 | a log grown by Note Added rows keeps having only Note Added rows after an index |
| JobFeed.ImportItems | modules/job_feed.py:147-215 | the feed's items extend the poll's `Progress`: one fate per item in order, each item's fate is its `ItemFate` against the store as it stood before it (the rows from before the poll plus the rows of the items added before it); the counters are the `Tally` of the fates; the rows after those from before the poll are exactly the `AddedRow`s of the added items, in order, with links no other row has; earlier rows and log entries stay; without scoring only Note Added entries are logged |
| JobFeed.ImportTurn | modules/job_feed.py:148-215 | one turn appends the item's `ItemFate` against the store before it and keeps `Progress` |
| JobFeed.ProgressStep | modules/job_feed.py:148-215 | what one import did to the rows and the log extends `Progress` by the item and its `ItemFate` against the rows so far, keeping every earlier fate the one against the store before it |
| JobFeed.AddedItems | modules/job_feed.py:164-211 | the added items are drawn from the items, never more of them |
| JobFeed.AddedSnoc | modules/job_feed.py:164-211 | one more item joins the added items exactly when its fate is Added |
| JobFeed.NewRowsSnoc | modules/job_feed.py:164-180 | appending an added item's row keeps the new rows exactly those of the added items, in order |
| JobFeed.AddedLinksDistinct | modules/job_feed.py:156-159 | no two items added in one poll share a link |
| JobFeed.AddedPrefix | modules/job_feed.py:147-211 | the items added before one index are the first of those added before any later index |
| JobFeed.AddedAt | modules/job_feed.py:164-211 | an added item comes right after the items added before it |
| JobFeed.FatesExactStep | modules/job_feed.py:147-215 | the next item's fate, taken against the rows so far, extends a run in which every fate is the one against the store before its item, while the rows only grow |
| JobFeed.ExactFits | modules/job_feed.py:156-159 | a fate against the store before its item is the fate against an empty store, or a skip for a link the store holds |
| JobFeed.AddedEarlier | modules/job_feed.py:164-211 | an item added before index k sits, at a fixed place, among the items added before k and among all added items |
| JobFeed.NewRowLink | modules/job_feed.py:165-175 | the row of the p-th added item carries that item's link |
| JobFeed.StoredBeforeSkipped | modules/job_feed.py:156-159 | an item whose link a row of the store before it carries is skipped |
| JobFeed.DuplicateSkipped | modules/job_feed.py:156-159 | an item whose link was stored before the poll, or is the link of an item added earlier in the same poll, is skipped |
| JobFeed.DuplicatesSkipped | modules/job_feed.py:156-159 | the same for every item of the run at once |
| JobFeed.ImportStep | modules/job_feed.py:148-215 | the counters become `Count` of the item's `ItemFate`; an added item appends exactly its `AddedRow` under the next id and any other fate leaves the rows as they were; earlier log entries stay; new rows stay fresh feed rows; without scoring only Note Added entries are logged |
| JobFeed.AddedRowShape | modules/job_feed.py:165-175 | an added row is a Prospect from source Other with the item's link |
| JobFeed.AddedKeepsFresh | modules/job_feed.py:156-159 | a row whose link was not stored keeps every link of the poll's rows unique, duplicates within the same poll included |
| JobFeed.NoResults | modules/job_feed.py:141-142 | the poll starts from the tally of no fates |
| JobFeed.PollUrl | modules/job_feed.py:144-147 | a URL's fetched items extend the poll's `Progress`; a blank URL adds none |
| JobFeed.PollStep | modules/job_feed.py:144-147 | one turn of the URL loop extends the poll's `Progress` from the first `i` URLs to the first `i + 1` |
| JobFeed.PolledSnoc | modules/job_feed.py:144-147 | the items of one more URL follow those of the URLs before it |
| JobFeed.PollContext | modules/job_feed.py:135-139 | scoring is on exactly when auto-scoring is set and the résumé is not blank; the keywords, threshold and next action are the given ones |
| JobFeed.PollUrls | modules/job_feed.py:144-217 | the result is the `Tally` of one fate per item of the non-blank URLs, in order, each item's fate is its `ItemFate` against the store as it stood before it (the rows from before the poll plus the rows of the items added before it); the rows after those from before the poll are exactly the `AddedRow`s of the added items, in order; earlier rows and log entries stay; without scoring only Note Added entries are logged |
| JobFeed.PollFeeds | modules/job_feed.py:115-217 | a failing Prospect lookup writes nothing; otherwise the result is the `Tally` of one fate per fetched item, each item's fate is its `ItemFate` against the store as it stood before it (the rows from before the poll plus the rows of the items added before it), so the counters add up to the number of items and the titles are the added items' `NewTitle`s in order; an item whose link was stored before the poll, or is the link of an item added earlier in the same poll, is skipped; the new rows are exactly the `AddedRow`s (link, company, role, `jd_raw`, score) of the added items, in order, and no two added items share a link; without scoring nothing is filtered and no AI Action entry is logged |
| Ingester.CleanTextLines | ingester.py:44-45 | the cleaned text has exactly the page's non-blank lines, stripped and in order |
| Ingester.CleanTextNoBlankLines | ingester.py:44-45 | no line of the cleaned text is blank or unstripped, and "\n" is its only line break |
| Ingester.CleanTextStripped | ingester.py:44-45 | the cleaned text has no surrounding whitespace |
| Ingester.CleanTextIdempotent | ingester.py:44-45 | cleaning twice gives the same as cleaning once |
| Ingester.FetchUrl | ingester.py:11-50 | a failed fetch becomes a RuntimeError carrying "Could not fetch JD from URL: " followed by the fetch's own error text; a successful one gives the cleaned page |
| Ingester.FetchUrlLines | ingester.py:41-46 | fetched text is stripped and holds exactly the page's non-blank lines, stripped |
| Ingester.UrlCaseInsensitive | ingester.py:68 | a source is a URL exactly when its first four letters spell "http" in any case |
| Ingester.AttachFields | ingester.py:84-85 | `raw_text` and `source_url` hold what was assigned; every other key is the extractor's |
| Ingester.IngestJdRejects | ingester.py:72-78 | a ValueError carrying the stripped length exactly for a non-URL source of at most 200 characters |
| Ingester.IngestJdFetchFails | ingester.py:67-71 | a RuntimeError carrying the fetch's error text exactly when a URL source cannot be fetched |
| Ingester.IngestJdFields | ingester.py:83-87 | every result carries `raw_text` and `source_url` over the extractor's keys, and keeps all its other keys |
| Ingester.IngestJdUrl | ingester.py:67-71 | a fetched URL is stored as `source_url`, and the raw text is the cleaned page |
| Ingester.IngestJdText | ingester.py:72-74 | long pasted text is its own raw text, with a null `source_url` |
| Ingester.LengthBoundary | ingester.py:72-78 | exactly 200 characters are refused and 201 accepted |
| Ingester.SurroundingSpaceIgnored | ingester.py:67 | surrounding whitespace does not change the result |

## Left out

- `modules/workflow.py` is not part of this model. The details its tests leave open are injected rules:
  - the next-action table;
  - the Stage Change text;
  - the follow-up label, including the label for 4–6 days.

  `Workflow.ReferenceCadence` is one rule that meets the tests and the two assumed cadence
  rules. The today-queue order and the InvalidThreshold error are assumptions of this model;
  no shown code fixes them. Nothing shown fixes the pipeline summary's order either; listing it
  in STAGE_ORDER order is this model's choice.
- `Workflow.Advanced`: when the table has no entry for a non-terminal stage, the move keeps the
  old next action. The engine's behaviour there is not shown. Under `WellFormed` every
  non-terminal stage has an entry (`NextActionAllStages`), so the case does not arise.
- `models/opportunity.py` and `db/database.py` are not part of this model. Opportunities are
  written through `Tables.InsertOpportunity`, `UpdateOpportunity` and `DeleteOpportunity`.
  Deleting an opportunity does not cascade to its contacts or log rows.
- `Tables.DeleteOpportunity` keeps `nextOppId`, so a deleted id is never reused. This is
  SQLite's AUTOINCREMENT behaviour, assumed because the table definition is not part of this
  model. Without AUTOINCREMENT, SQLite could hand the id out again, and the Note Added entry of
  a filtered feed item would then point at an unrelated opportunity.
- `updated_at` is stamped with today by `Routes.AddNote` and `Workflow.Advanced`. The feed's
  score update keeps the value set at creation, which is the same day.
- SQL execution is not modelled. Statements appear as text only in `Contacts.UpdateQuery` and
  `Contacts.ListContactsQuery`. Their effect on the table is stated separately, by
  `UpdatedRows` and `ListContacts`.
- "ORDER BY created_at DESC" is modelled as newest row first, that is, reverse rowid order.
  Rows created in the same second are not tied.
- HTTP, XML, HTML and AI are parameters:
  - `fetch` (download plus RSS/Atom parsing) and `page` (download plus text extraction);
  - `scorer`, for `score_fit`; its own writes to the store are not modelled;
  - `extract`, for `extract_jd_structure`;
  - the outreach draft, an outcome flag.
- `JobFeed.PollFeeds`:
  - A failing `create_opportunity` is the `createOk` predicate on the link; a failing
    `log_activity` inside that `try` is not modelled.
  - The fit score is an integer. A float, or any other non-integer, counts as a scoring
    failure.
- `Cli.FollowUp`: the Day-0 date arithmetic is on whole days, with no time of day.
- `Routes.AddNote`: `add_note` on an unknown opportunity raises before writing anything. It is
  modelled as a NotFound outcome with no change.
- `Contacts.UpdateContact`: the `updated_at` column is not touched, matching the statement.
- `JobFeed.LoadFeedConfig`: `int()` of text is modelled as surrounding whitespace, an optional
  sign and ASCII digits. Underscores and non-ASCII digits are not accepted. A float becomes 0,
  because the model has no floats.
- `Text.Lower` and `Text.Strip` are ASCII only. `SplitLines` splits on the common line-break
  characters, not on every boundary that `str.splitlines` knows.
- `JobFeed.SplitTitleCompany`: the title pattern is modelled for titles without line breaks.
  On a multi-line title `.` would not cross the break, and the model does not capture that.
- Not modelled at all:
  - `modules/scheduler.py` (a timer thread);
  - `modules/mailer.py`, `app.py` and `digest.py`;
  - CLI prompts and echo output, Jinja rendering, CSV file writing, the résumé cache, environment
    loading, and the API-key assertion in `config.py`.
