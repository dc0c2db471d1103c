# Weekly report and on-call rotation, modelled in Dafny

The system is a small back office for a team. It has four parts, each modelled here.

- **Weekly report job.** Once a week it finds the latest weekly-report page in Confluence and copies it. It then renames the copy for the next week: for example, `2025 W1 技術部 RD4 團隊週報 (1229-0102)` becomes `2026 W02 技術部 RD4 團隊週報 (0105-0109)`.
  - The copy goes under a yearly root page, `團隊週會 {year}`, which the job creates when it is missing.
- **On-call job.** It names this week's on-call person in a Slack channel topic and advances the rotation index. It then saves the configuration.
- **Configuration service.** It keeps that configuration in one cached object in front of a storage bucket.
- **Admin page.** Its roster editor adds, removes and reorders people.

The model is organised as follows.

- **`Calendar`** covers proleptic Gregorian dates as `datetime.date` handles them:
  - day numbers (`toordinal`) and `weekday`;
  - `+ timedelta` and comparison;
  - CPython's `isocalendar`, which is proved to agree with the ISO 8601 definition. Under that definition, week 1 is the week holding the year's first Thursday.
- **`Text`** covers the string operations the title code relies on: decimal formatting, `f"{n:02d}"`, `str.strip` with Python's whitespace set, `split(" ")` and `join`.
- **`WeeklyTitle`** covers the title logic:
  - the `\((\d{4})-(\d{4})\)` search and substitution;
  - `_get_date_from_title`;
  - `_generate_next_week_title`, both as a function and as the day-by-day loop the code runs;
  - the round trip from a written title back to its date.
- **`Wiki`** is an in-memory Confluence space. It supports title search, child listing, create, copy, and update with version checking.
- **`ConfluenceService`** covers `_find_or_create_root_page`, `_find_latest_weekly_report` (a loop proved against a scan function) and `create_next_weekly_report`.
- **`Models`** holds the configuration records and the JSON document they are stored as. It covers validation (`AppConfig(**data)`) and dumping (`model_dump`).
- **`ConfigService`** covers the storage bucket and the module-level cache (`get_app_config`, `save_app_config`).
- **`OnCallService`** covers `notify_on_call_person`, the rotation arithmetic and `run_oncall_notification_job`.
- **`RosterEditor`** covers the add, remove and move handlers of `OnCallRoster`.

Objects that the code changes in place are classes with `modifies` clauses:

- the Confluence space;
- the bucket;
- the cache;
- the shared `AppConfig` and its `OnCallSchedule`;
- the Slack channel log;
- the editor component.

Their methods are proved against pure specification functions: `NextWeekTitle`, `Scan`/`LatestReport`, `ReportPlan`, `LoadedConfig`, `Rotation`, `Job`, `Removed` and `Moved`.

Several behaviours come from the code rather than from its comments or tests:

- **Title year.** The new title carries the next Monday's calendar year, not its ISO year, so the Monday 2025-12-29 is titled `2025 W01`.
- **Negative index.** A negative `current_index` is read from the end of the roster, as Python indexing does. It raises `IndexError` only below minus the roster length.
- **Aliasing in the on-call job.** The job advances the index inside the cached configuration object before saving. So when the save fails, the cache has moved on but the bucket has not.

## Model

| member | source | states |
|---|---|---|
| Text.NatToString | backend/src/services/confluence_service.py:150 | `str(n)` is a non-empty digit string whose value is `n`, one digit exactly when `n < 10`, with no leading zero for `n >= 1`, which fixes the string |
| Text.Pad2 | backend/src/services/confluence_service.py:150 | `{n:02d}` is a digit string of value `n`, exactly two characters below 100, with a leading zero only below 10 |
| Text.StripSpec | backend/src/services/confluence_service.py:139 | `strip()` leaves the stretch between leading and trailing whitespace: everything cut is whitespace and the result neither starts nor ends with it |
| Text.Split | backend/src/services/confluence_service.py:147 | `split(" ")` gives at least one piece and no piece holds a space |
| Text.SplitCount | backend/src/services/confluence_service.py:147-148 | a text splits into two or more pieces exactly when it contains the separator |
| Text.JoinSplit | backend/src/services/confluence_service.py:147-149 | joining the pieces of a split with the separator gives back the text |
| Text.SplitJoin | backend/src/services/confluence_service.py:147-149 | splitting the join of separator-free pieces gives back the pieces |
| Calendar.DaysBeforeYearClosedForm | backend/src/services/confluence_service.py:130-135 | the day count before year `y` is CPython's `365n + n/4 - n/100 + n/400` with `n = y - 1` |
| Calendar.NextDay | backend/src/services/confluence_service.py:133 | the day after a valid date is valid, one day number later, and changes year only into 1 January |
| Calendar.AddDays | backend/src/services/confluence_service.py:130-135 | `d + timedelta(days=n)` is a valid date exactly `n` day numbers later, never in an earlier year |
| Calendar.WeekdayAfter | backend/src/services/confluence_service.py:130-133 | `n` days later the weekday has moved `n` places round the week |
| Calendar.BeforeIsOrdinalOrder | backend/src/services/confluence_service.py:95 | Python's date comparison agrees with day-number order, and equal dates have equal day numbers |
| Calendar.IsoCalendarIsIso8601 | backend/src/services/confluence_service.py:143 | CPython's `isocalendar()` equals the ISO 8601 week date (year of the week's Thursday, week counted from the week holding the first Thursday) |
| Calendar.IsoWeekNumberRange | backend/src/services/confluence_service.py:143 | ISO week numbers lie in 1..53 |
| WeeklyTitle.FindRange | backend/src/services/confluence_service.py:103 | `re.search` returns a position where the group matches, with no match before it, or nothing when no match exists |
| WeeklyTitle.FindRangeIsLeftmost | backend/src/services/confluence_service.py:103 | the search reports exactly the leftmost match |
| WeeklyTitle.RemoveNothing | backend/src/services/confluence_service.py:139 | `re.sub` on a text with no match leaves it unchanged |
| WeeklyTitle.RemoveRangesAfter | backend/src/services/confluence_service.py:139 | a stretch where no match starts is copied through by `re.sub` |
| WeeklyTitle.DateFromTitle | backend/src/services/confluence_service.py:101-122 | a parsed end date is always a date `datetime.date` can hold |
| WeeklyTitle.EndDate | backend/src/services/confluence_service.py:116-122 | the end date's year is never before the leading year |
| WeeklyTitle.UnparsedExactly | backend/src/services/confluence_service.py:103-115 | no date exactly when no `(dddd-dddd)` group occurs anywhere or the title does not start with four digits |
| WeeklyTitle.EndDateFields | backend/src/services/confluence_service.py:107-122 | month and day come from the second field of the leftmost group; the year is the leading year plus one exactly for a 12→01 group; an impossible day is an error, not "no date" |
| WeeklyTitle.DaysToMonday | backend/src/services/confluence_service.py:130-133 | the next Monday is one to seven days after the end date |
| WeeklyTitle.MondayAt | backend/src/services/confluence_service.py:130-133 | among the days the loop visits, only the last is a Monday |
| WeeklyTitle.NextMondayAfterIsFirstMonday | backend/src/services/confluence_service.py:130-133 | the next Monday is a Monday, strictly after the end date, at most seven days on, with no Monday in between |
| WeeklyTitle.GenerateNextWeekTitle | backend/src/services/confluence_service.py:124-159 | the day-by-day loop returns exactly what the one-step specification `NextWeekTitle` gives, errors included |
| WeeklyTitle.OverflowBeforeMonday | backend/src/services/confluence_service.py:130-133 | stepping past 9999-12-31 on the way to the Monday makes the roll-forward fail with an overflow |
| WeeklyTitle.NextWeekTitleFails | backend/src/services/confluence_service.py:126-135 | the roll-forward raises for an unparsed title, for an impossible date, and for a week past 9999-12-31, each exactly when its cause holds |
| WeeklyTitle.NextWeekTitleWeek | backend/src/services/confluence_service.py:130-157 | a new title names a Monday 1–7 days after the old end date and the Friday four days later, ending with their zero-padded `(MMDD-MMDD)` |
| WeeklyTitle.WeekAfter | backend/src/services/confluence_service.py:130-135 | the week after an end date runs from a Monday to the Friday four days later |
| WeeklyTitle.FridayOfWeek | backend/src/services/confluence_service.py:135 | four days after a Monday is a Friday |
| WeeklyTitle.RebuiltTitleShape | backend/src/services/confluence_service.py:139-150 | with four or more pieces the new title is the Monday's calendar year, `W` and the zero-padded ISO week, the pieces after the second joined back, and the new range |
| WeeklyTitle.FallbackKeepsPrefix | backend/src/services/confluence_service.py:151-157 | with fewer than four pieces the old prefix is kept verbatim in front of the new range |
| WeeklyTitle.RoundTrip | backend/src/services/confluence_service.py:113-157 | re-reading a written title gives back its Friday, across a December–January week too |
| WeeklyTitle.GeneratedTitleReadsBack | backend/src/services/confluence_service.py:101-159 | a title the roll-forward writes with four or more pieces reads back as the Friday of the new week |
| WeeklyTitle.RangeEndReadBack | backend/src/services/confluence_service.py:103-122 | a title written with any range shorter than four weeks reads back as the range's end date, the year following from the `12`→`01` rule |
| WeeklyTitle.RollForwardKeepsLabel | backend/src/services/confluence_service.py:139-157 | rolling a written title forward keeps a label of two or more words word for word, under the new Monday's calendar year and ISO week |
| WeeklyTitle.RollForwardOneWeek | backend/src/services/confluence_service.py:124-159 | rolling a written title for a Monday forward moves on exactly seven days |
| Wiki.TitleIndex | backend/src/services/confluence_client.py:45-58 | the position found holds the title and no earlier page does; none means no page holds it |
| Wiki.PageByTitle | backend/src/services/confluence_client.py:45-58 | the first result of the title search: none exactly when no page has the title |
| Wiki.Children | backend/src/services/confluence_client.py:60-69 | a page is listed exactly when it is in the space under that parent (paging left out) |
| Wiki.ChildrenInOrder | backend/src/services/confluence_client.py:60-69 | the child listing keeps the space's order: listed pages come in increasing id order, which in a well-formed space is creation order |
| Wiki.Wiki.CreatePage | backend/src/services/confluence_client.py:98-116 | a new page with the given parent, title and body at version 1 is added and nothing else changes |
| Wiki.Wiki.CopyPage | backend/src/services/confluence_client.py:118-128 | a new page with the source's title and body, under the destination, at version 1 is added |
| Wiki.Wiki.UpdatePage | backend/src/services/confluence_client.py:71-85 | the retitle succeeds exactly with the current version plus one and changes only that page's title and version; otherwise nothing changes |
| ConfluenceService.RootTitleInjective | backend/src/services/confluence_service.py:69 | different years have different root titles |
| ConfluenceService.WithRootFindsRoot | backend/src/services/confluence_service.py:67-82 | after the root step the title search finds the year's root and the space stays well-formed and only grows |
| ConfluenceService.FindOrCreateRootPage | backend/src/services/confluence_service.py:67-82 | an existing first page with the title is returned with `True`, otherwise a new root page with body `{year} weekly reports.` is created and returned with `False` |
| ConfluenceService.ScanFails | backend/src/services/confluence_service.py:93-97 | the scan raises exactly when some child's title names an impossible day |
| ConfluenceService.ScanKeepsLatest | backend/src/services/confluence_service.py:90-97 | the kept page is the first whose date is the greatest, or none with `date.min` kept when no date is later |
| ConfluenceService.LatestReportIsLatest | backend/src/services/confluence_service.py:84-99 | fails exactly when some child's title names an impossible day; otherwise none exactly when no title names a day after `date.min`, else the first child with the greatest end date, titles without a date skipped |
| ConfluenceService.FindLatestWeeklyReport | backend/src/services/confluence_service.py:84-99 | the loop over the children returns `LatestReport` of them |
| ConfluenceService.PlanMondayRepresentable | backend/src/services/confluence_service.py:30-34 | a planned report comes from the space and its next Monday is a representable date |
| ConfluenceService.PlanNextReport | backend/src/services/confluence_service.py:25-34 | the first half of the job computes `ReportPlan` of the space, having only added the year's root page if it was missing |
| ConfluenceService.PublishReport | backend/src/services/confluence_service.py:36-62 | the copy lands under the root page of the next Monday's year, with the new title, the source's body and version copied-plus-one; the space gains only that year's root page when it was missing and the copy |
| ConfluenceService.CreateNextWeeklyReport | backend/src/services/confluence_service.py:15-62 | the job fails with the plan's error leaving only the root page added, or publishes the report as `PublishReport` states, the space gaining exactly today's root page and the next Monday's root page when missing and the copy |
| Models.ValidateRoster | backend/src/models/config.py:5-13 | a roster list validates exactly when every entry is a valid person, and keeps its length |
| Models.Validate | backend/src/services/config_service.py:17-18 | what validation accepts has a well-formed Confluence address |
| Models.RosterRoundTrip | backend/src/models/config.py:5-13 | a dumped roster validates back to itself |
| Models.DumpRoundTrip | backend/src/models/config.py:10-34 | a dumped configuration validates back to itself |
| Models.DefaultIsValid | backend/src/services/config_service.py:19-28 | the fallback configuration is valid and survives its own save, while the empty document does not validate |
| ConfigService.Store.LoadConfig | backend/src/services/gcs_service.py:15-23 | the stored document, or `{}` when it cannot be read |
| ConfigService.Store.SaveConfig | backend/src/services/gcs_service.py:25-31 | the document is stored, or the write fails and the stored document is unchanged |
| ConfigService.LoadedConfig | backend/src/services/config_service.py:16-26 | the first load settles on the stored configuration when valid, the default otherwise, and is always valid |
| ConfigService.MissingDocumentGivesDefault | backend/src/services/gcs_service.py:20-23 | an unreadable document leads to the default configuration |
| ConfigService.SavedDocumentLoads | backend/src/services/config_service.py:34 | a saved configuration loads back as itself |
| ConfigService.ConfigCache.GetAppConfig | backend/src/services/config_service.py:12-29 | a cached object is returned without touching the store; otherwise the loaded or default configuration is cached, and the default is saved, the cache being set even when that save fails |
| ConfigService.ConfigCache.SaveAppConfig | backend/src/services/config_service.py:31-35 | the store is written first; the cache takes the new object only when the write succeeded |
| ConfigService.SaveThenGet | backend/src/services/config_service.py:12-35 | after a successful save of `c`, getting the configuration returns `c` and the store reads back as `c` |
| OnCallService.Advance | backend/src/services/oncall_service.py:35 | the next index always lies within the roster |
| OnCallService.RotationSelects | backend/src/services/oncall_service.py:19-36 | raises exactly for an empty roster or an index below minus its length; otherwise selects the slot Python reads (index at or past the end reset to 0) and stores the following slot |
| OnCallService.AdvanceFromEnd | backend/src/services/oncall_service.py:26-35 | advancing a negative index agrees with advancing the position it reads |
| OnCallService.StepsMoveOn | backend/src/services/oncall_service.py:35 | `k` runs from an in-range index land `k` places on, modulo the roster length |
| OnCallService.FullCycle | backend/src/services/oncall_service.py:35 | as many runs as there are people return to the starting index |
| OnCallService.CycleVisitsEach | backend/src/services/oncall_service.py:35 | within one cycle every position has its turn exactly once, in order |
| OnCallService.Slack.UpdateChannelDescription | backend/src/services/slack_service.py:25-34 | the topic is set, or the call fails and nothing is set |
| OnCallService.NotifyOnCallPerson | backend/src/services/oncall_service.py:10-38 | rejects before any Slack call; sets the topic naming the selected person once; advances the same schedule object only after that succeeds; never touches the roster |
| OnCallService.JobSavesOnlyAfterNotify | backend/src/services/oncall_service.py:49-70 | disabled means no topic and no save; a save happens only after the topic was set; a failed notification saves nothing and changes nothing; a save changes only the index, into range |
| OnCallService.JobAdvancesInOrder | backend/src/services/oncall_service.py:56-62 | an enabled run from an in-range index names that person and stores the next index of the rotation |
| OnCallService.RunOnCallNotificationJob | backend/src/services/oncall_service.py:41-70 | the run has exactly the effect `Job` describes on the cached configuration, including an advanced cache when the final save fails |
| RosterEditor.Removed | frontend/src/components/OnCallRoster.tsx:29 | filtering out an index drops exactly that entry and keeps the others in order; an index naming no entry changes nothing |
| RosterEditor.RemovedTakesOne | frontend/src/components/OnCallRoster.tsx:28-29 | the removal is the roster spliced around the index, and the multiset loses exactly that person |
| RosterEditor.RemoveUndoesAdd | frontend/src/components/OnCallRoster.tsx:18-29 | removing the person just appended gives the roster back |
| RosterEditor.MovedIsPermutation | frontend/src/components/OnCallRoster.tsx:35-41 | a move keeps the length and the people, swaps only the entry and its neighbour in the given direction, and does nothing at the ends |
| RosterEditor.MoveDownUndoesMoveUp | frontend/src/components/OnCallRoster.tsx:37-40 | moving up and then back down restores the roster |
| RosterEditor.WithRoster | frontend/src/components/OnCallRoster.tsx:24 | the saved configuration differs from the page's only in the roster; the index is not adjusted |
| RosterEditor.RemovalKeepsRotationWorking | backend/src/services/oncall_service.py:22-26 | after a removal leaves the index past the end, the next rotation still succeeds and starts from the first person |
| RosterEditor.Editor.AddPerson | frontend/src/components/OnCallRoster.tsx:18-26 | with both fields filled, the person is appended, both fields are cleared and the config is saved; otherwise nothing changes |
| RosterEditor.Editor.RemovePerson | frontend/src/components/OnCallRoster.tsx:28-32 | the roster becomes `Removed` of the old one and is saved |
| RosterEditor.Editor.MovePerson | frontend/src/components/OnCallRoster.tsx:35-44 | the in-place swap on a copied array gives `Moved` of the old roster, and the config is saved even when nothing moved |

## Left out

- Unicode digits: the model's `\d` matches ASCII digits only, while Python's also matches other Unicode decimal digits.
- WeeklyTitle.RoundTrip and WeeklyTitle.GeneratedTitleReadsBack: proved only for years 1000 and later, and for a label that holds no `(dddd-dddd)` group. An earlier year is written with fewer than four digits, and the title then does not parse. A label holding such a group would be the one the date search finds.
- WeeklyTitle.NextWeekTitle finds the Monday in one step, while the code loops day by day. `GenerateNextWeekTitle` keeps that loop and is proved equal to the one-step function.
- Network and HTTP failures of the Confluence, Slack and storage clients are not modelled. Confluence calls always succeed, except an update with the wrong version. Slack and storage failures are one flag each (`available`, `writable`).
- Wiki.PageByTitle: the title search returns the first matching page in creation order. The order Confluence returns results in is not specified.
- Wiki.Children: the child listing returns every child of the page, in creation order. `get_child_pages` sends no `limit` or `start`, so it reads only the first page of results, in the server's order. Paging and server order are not modelled. So the latest report and the tie-break between equal dates are proved over the complete, creation-ordered list.
- Wiki.Wiki.CopyPage: the copy keeps the source's title. Confluence's handling of two pages with the same title in one space is not modelled.
- ConfluenceService.CreateNextWeeklyReport:
  - It returns the updated page, not the page URL built from the client's domain and `_links.webui` (lines 64-65).
  - The `if not root_page` checks (lines 27-28, 40-43) cannot fail here, because a returned page is never empty.
- `datetime.date.today()` becomes the parameter `today`.
- `run_weekly_report_job` and the Slack message it posts are outside this model.
- Models.Validate: it accepts only exact JSON types, whereas pydantic's lax mode also coerces values (a string to an int, say). `IsHttpUrl` checks only the scheme and that a host follows. `HttpUrl` parsing and normalisation (such as the added trailing slash) are not modelled.
- JSON numbers are integers only. A document that `json.loads` cannot read is a missing blob.
- `get_gcs_config_service` raising when `GCS_BUCKET_NAME` is unset is not modelled.
- Console prints and the wording of returned messages are left out. The job's result is the `JobOutcome` and `JobError` datatypes.
- Concurrency is not modelled: two requests sharing the module-level cache, and the scheduler calling the jobs.
- Cron schedule strings are carried as text and never validated, as in the code.
- The React side is left out: rendering, the `useEffect` that reloads the roster when the page's configuration changes, and the input change handlers (the fields are set directly).

## Findings

No discrepancy between the code and its evident intent was established. The title's use of the calendar year rather than the ISO year (`2025 W01` for the week of 2025-12-29) is modelled as written.
