# OneUptime core logic in Dafny

This project models five pieces of OneUptime, the open-source monitoring and
status-page platform:

- **The scheduled-maintenance note job.** A worker runs every minute. It tells status-page subscribers about new public notes on scheduled maintenance events (`notification_job.dfy`). The note table and the outbox are fields of a `NotificationJob` class. Each run:
  - selects the notes still to be notified;
  - skips a note whose event is gone;
  - marks the note as notified;
  - groups the status-page resources of the event's monitors by status page;
  - sends each eligible subscriber an SMS and/or an email.

  Every mark and every send is appended to `log` in the order the job issues them.
- **The legacy status-page service.**
  - `status_page_model.dfy` holds the records. A status page is a class whose `domains` and `monitors` lists the service reassigns.
  - `status_page_status.dfy` holds the status bubble: `filterProbeData`, `getServiceStatus` and `getStatusBubble`.
  - `status_page_events.dfy` holds the scheduled-event listing:
    - `limitEvents` pagination;
    - the merge of the events of several monitors with each id kept once;
    - the sort by start date;
    - `getEvents` and `getFutureEvents`.
  - `status_page_domains.dfy` holds the domain-list and monitor-list edits: `createDomain`, `deleteDomain`, `updateCustomDomain`, `updateDomain` and `removeMonitor`.
  - `status_page_access.dfy` holds the page-privacy check in `isPermitted` (see Findings).
- **The Copilot action base class** (`copilot_actions.dfy`). It covers:
  - the file-extension gate `onBeforeExecute`;
  - `{{key}}` filling in `fillVarsInPrompt`, which fails on leftovers;
  - extracting the code between ``` fences in `cleanup`;
  - the `execute` pipeline;
  - the pull-request title and the commit message.
- **OTLP exporter settings** (`telemetry.dfy`):
  - `getHeaders` parses `OTEL_EXPORTER_OTLP_HEADERS` into a header map. It splits on `;` and then on `=`.
  - The endpoint getters append `/v1/logs`, `/v1/metrics` and `/v1/traces` to `OTEL_EXPORTER_OTLP_ENDPOINT`.
- **The `Port` value type** (`port.dfy`). It covers:
  - range validation to 0..65535, with strings trimmed and parsed by `parseInt(…, 10)`;
  - the validating setter of the class;
  - the JSON form and the database column form.

Shared pieces:
- `js_builtins.dfy` gives the JavaScript built-ins this code relies on. Each has the semantics ECMAScript gives it for the arguments used:
  - `indexOf`, `includes`, `split`, `join`;
  - `replace` with a string pattern, and a global literal replace;
  - `trim`, `slice`;
  - the line terminators.
- `wrappers.dfy` gives `Option` and `Result`.

Collaborators become parameters: database queries, the language model, the eligibility rule and the URL helpers. The environment variables are parameters too, with `None` for an unset variable. Unless stated otherwise, an empty string stands for a missing id or a falsy text.

## Model

| member | source | states |
|---|---|---|
| NotificationJob.SelectedIndices | App/FeatureSet/Workers/Jobs/ScheduledMaintenancePublicNote/SendNotificationToSubscribers.ts:42-59 | the notes processed are exactly those not yet notified, to be notified and created before now, in table order |
| NotificationJob.NotificationJob.Run | App/FeatureSet/Workers/Jobs/ScheduledMaintenancePublicNote/SendNotificationToSubscribers.ts:61-274 | one run leaves the note table as `MarkedNotes` (selected notes with an existing event are flagged) and appends, note by note, exactly the marks and sends of `NotesEffects` |
| NotificationJob.NotificationJob.ProcessNote | App/FeatureSet/Workers/Jobs/ScheduledMaintenancePublicNote/SendNotificationToSubscribers.ts:63-96 | a note whose event is missing changes nothing; otherwise only that note's flag is set, and the mark is logged before the note's sends |
| NotificationJob.NotificationJob.ProcessSelected | App/FeatureSet/Workers/Jobs/ScheduledMaintenancePublicNote/SendNotificationToSubscribers.ts:61-96 | handling the next selected note extends the marked set by that note and logs its effects |
| NotificationJob.NotificationJob.AnnounceNote | App/FeatureSet/Workers/Jobs/ScheduledMaintenancePublicNote/SendNotificationToSubscribers.ts:100-155 | after the mark, the resources are grouped and every status page of the event is visited in order; the note table is untouched |
| NotificationJob.NotificationJob.NotifyPage | App/FeatureSet/Workers/Jobs/ScheduledMaintenancePublicNote/SendNotificationToSubscribers.ts:152-273 | a page without an id sends nothing; otherwise each subscriber's sends are logged in subscriber order |
| NotificationJob.NotificationJob.constructor | App/FeatureSet/Workers/Jobs/ScheduledMaintenancePublicNote/SendNotificationToSubscribers.ts:42-59 | the job starts from a note table and an empty outbox |
| NotificationJob.GroupByStatusPage | App/FeatureSet/Workers/Jobs/ScheduledMaintenancePublicNote/SendNotificationToSubscribers.ts:129-143 | the in-place grouping loop builds exactly `Buckets(resources)` |
| NotificationJob.BucketsMeaning | App/FeatureSet/Workers/Jobs/ScheduledMaintenancePublicNote/SendNotificationToSubscribers.ts:129-143 | there is a bucket exactly for each status page some resource names; a resource is in a bucket exactly when it names that page (resources without a page are dropped) |
| NotificationJob.Bucket | App/FeatureSet/Workers/Jobs/ScheduledMaintenancePublicNote/SendNotificationToSubscribers.ts:140-142 | a page's bucket holds exactly the resources naming that page |
| NotificationJob.BucketAppend | App/FeatureSet/Workers/Jobs/ScheduledMaintenancePublicNote/SendNotificationToSubscribers.ts:131-143 | buckets keep input order: the bucket of a concatenation is the two buckets one after the other |
| NotificationJob.BucketsStep | App/FeatureSet/Workers/Jobs/ScheduledMaintenancePublicNote/SendNotificationToSubscribers.ts:131-143 | one more resource is dropped when it names no page, and otherwise pushed at the end of its page's bucket, which is created empty when missing |
| NotificationJob.NoResourcesNoBuckets | App/FeatureSet/Workers/Jobs/ScheduledMaintenancePublicNote/SendNotificationToSubscribers.ts:100-102 | for any event without monitors the resource query is skipped: there are no resources and the grouping is the empty map |
| NotificationJob.NonEmptyIds | App/FeatureSet/Workers/Jobs/ScheduledMaintenancePublicNote/SendNotificationToSubscribers.ts:105-112 | the resource query uses exactly the monitor ids that are set |
| NotificationJob.SkippedNoteStaysSelected | App/FeatureSet/Workers/Jobs/ScheduledMaintenancePublicNote/SendNotificationToSubscribers.ts:83-85 | a note whose event is missing produces no write, stays unmarked, and is selected again by any later run |
| NotificationJob.MarkBeforeSend | App/FeatureSet/Workers/Jobs/ScheduledMaintenancePublicNote/SendNotificationToSubscribers.ts:87-96 | for a note with an event, the first write is its mark and every later write is a send |
| NotificationJob.PagesEffectsAreSends | App/FeatureSet/Workers/Jobs/ScheduledMaintenancePublicNote/SendNotificationToSubscribers.ts:152-273 | the status-page loop only sends; it never marks |
| NotificationJob.SubscribersEffectsAreSends | App/FeatureSet/Workers/Jobs/ScheduledMaintenancePublicNote/SendNotificationToSubscribers.ts:175-272 | the subscriber loop only sends; it never marks |
| NotificationJob.MarkingOnlySets | App/FeatureSet/Workers/Jobs/ScheduledMaintenancePublicNote/SendNotificationToSubscribers.ts:87-96 | a run changes no field except the notified flag; it never clears the flag, and it sets the flag exactly on selected notes whose event exists |
| NotificationJob.SubscriberChannels | App/FeatureSet/Workers/Jobs/ScheduledMaintenancePublicNote/SendNotificationToSubscribers.ts:175-222 | a subscriber without an id, or one the eligibility rule refuses, gets nothing; an eligible one gets an SMS exactly when a phone is set and an email exactly when an address is set, independently, each to that address |
| NotificationJob.SubscriberEffects | App/FeatureSet/Workers/Jobs/ScheduledMaintenancePublicNote/SendNotificationToSubscribers.ts:175-222 | one subscriber gets at most two writes, an SMS and an email, and never a mark |
| NotificationJob.NameAndSubject | App/FeatureSet/Workers/Jobs/ScheduledMaintenancePublicNote/SendNotificationToSubscribers.ts:170-171 | the page name is pageTitle, else name, else "Status Page"; the subject is "[Scheduled Maintenance Update] " followed by that name |
| NotificationJob.EmailVarsMeaning | App/FeatureSet/Workers/Jobs/ScheduledMaintenancePublicNote/SendNotificationToSubscribers.ts:230-259 | logoUrl is empty exactly without a logo; isPublicStatusPage is "true" or "false" as the page is public or not; resourcesAffected is the bucket's display names joined by ", ", or "" without a bucket; name, note and unsubscribe link are passed through |
| NotificationJob.DisplayNames | App/FeatureSet/Workers/Jobs/ScheduledMaintenancePublicNote/SendNotificationToSubscribers.ts:247-250 | one display name per resource, in order |
| StatusPageModel.StatusPage.constructor | backend/backend/services/statusPageService.js:119-121 | a status page document holds its id, project, privacy flag, domains and monitors |
| StatusPageStatus.HealthOf | backend/backend/services/statusPageService.js:1529-1534 | a status counts as offline exactly when it is "offline", as degraded exactly when it is "degraded", and as online otherwise |
| StatusPageStatus.KeptEntriesMeaning | backend/backend/services/statusPageService.js:1495-1500 | the filter keeps only entries with no probe id or the probe's id, keeps none exactly when none qualifies, and its first survivor is the first qualifying entry |
| StatusPageStatus.FilterProbeDataMeaning | backend/backend/services/statusPageService.js:1489-1512 | filterProbeData gives no statuses when no entry qualifies, and otherwise the statuses of the first qualifying entry |
| StatusPageStatus.PairStatusMeaning | backend/backend/services/statusPageService.js:1525-1528 | a pair is offline exactly when its first status is "offline", degraded exactly when it is "degraded"; a missing or empty status counts as online |
| StatusPageStatus.RowStatuses | backend/backend/services/statusPageService.js:1523-1535 | each probe contributes exactly one status for a monitor, in probe order |
| StatusPageStatus.Grid | backend/backend/services/statusPageService.js:1522-1536 | every (monitor, probe) pair has exactly one cell |
| StatusPageStatus.GridCell | backend/backend/services/statusPageService.js:1524-1528 | the cell of a pair is the status that probe reports for that monitor |
| StatusPageStatus.VisitMonitor | backend/backend/services/statusPageService.js:1523-1535 | the inner loop lowers the online count by the monitor's offline pairs and raises the degraded count by its degraded pairs |
| StatusPageStatus.GetServiceStatus | backend/backend/services/statusPageService.js:1514-1546 | the bubble is the classification of the pair count, the offline pairs and the degraded pairs over the whole grid |
| StatusPageStatus.ServiceStatusMeaning | backend/backend/services/statusPageService.js:1538-1545 | "all" exactly when no pair is offline or degraded; "some-degraded" exactly when none is offline and some is degraded; "none" exactly when there are pairs and all are offline; "some" exactly when some but not all are offline; no monitor gives "all" |
| StatusPageStatus.ClassifyGrid | backend/backend/services/statusPageService.js:1538-1545 | the same four equivalences for any grid of a fixed width |
| StatusPageStatus.CountGridZero | backend/backend/services/statusPageService.js:1538-1540 | the count of a status over the grid is zero exactly when no cell has it |
| StatusPageStatus.CountGridFull | backend/backend/services/statusPageService.js:1541-1542 | the count equals the number of cells exactly when every cell has the status |
| StatusPageStatus.CountGridBound | backend/backend/services/statusPageService.js:1518-1519 | no count exceeds the number of pairs |
| StatusPageStatus.StatusMessageDistinct | backend/backend/services/statusPageService.js:1162-1171 | each bubble has its own message |
| StatusPageStatus.GetStatusBubble | backend/backend/services/statusPageService.js:1139-1177 | getStatusBubble returns getServiceStatus's bubble with its message |
| StatusPageEvents.LimitEventsFirstPage | backend/backend/services/statusPageService.js:1481-1487 | skip 0 gives the first `limit` events |
| StatusPageEvents.LimitEventsSecondPage | backend/backend/services/statusPageService.js:1481-1487 | skip 1 gives events limit..2·limit |
| StatusPageEvents.LimitEventsLaterPages | backend/backend/services/statusPageService.js:1481-1487 | any skip of 2 or more gives nothing |
| StatusPageEvents.LimitEventsBound | backend/backend/services/statusPageService.js:1481-1487 | a page never holds more than `limit` events |
| StatusPageEvents.LimitEvents | backend/backend/services/statusPageService.js:1481-1487 | a page is always a run of consecutive events of the sorted list |
| StatusPageEvents.SeenIdsDistinctAndComplete | backend/backend/services/statusPageService.js:723-729 | the collected ids hold no id twice, and hold exactly the ids some event has |
| StatusPageEvents.SeenIdsOrder | backend/backend/services/statusPageService.js:723-729 | the collected ids come in the order of their first occurrence |
| StatusPageEvents.CollectIds | backend/backend/services/statusPageService.js:723-729 | pushing one monitor's event ids, skipping ids already collected, extends the first-seen id list by that monitor's events |
| StatusPageEvents.FindById | backend/backend/services/statusPageService.js:738-740 | find gives the first event with the id, or nothing when no event has it |
| StatusPageEvents.MergeEvents | backend/backend/services/statusPageService.js:696-741 | the loops build exactly `MergedEvents` of the monitors' lists: one event per collected id, in first-seen order, each the first event with that id |
| StatusPageEvents.FirstEventsOf | backend/backend/services/statusPageService.js:738-740 | the map with find replaces each collected id by the first event with that id, which is also that event's first position |
| StatusPageEvents.MergedEvents | backend/backend/services/statusPageService.js:715-741 | the merge has one event per id first seen in the flattened lists, in that order, each taken from those lists |
| StatusPageEvents.SeenIdsFound | backend/backend/services/statusPageService.js:723-740 | find succeeds for every collected id and returns an event with that id |
| StatusPageEvents.MergedEventsProperties | backend/backend/services/statusPageService.js:735-741 | the merge holds no id twice, loses no id, and keeps first-seen order |
| StatusPageEvents.FirstIndexOfEvent | backend/backend/services/statusPageService.js:738-740 | the first event with an id sits at that event's first position |
| StatusPageEvents.InsertPosition | backend/backend/services/statusPageService.js:814 | the insertion point of an event lies after every event starting no later and before every event starting later |
| StatusPageEvents.Insert | backend/backend/services/statusPageService.js:814 | inserting into a sorted list keeps it sorted and adds exactly that event |
| StatusPageEvents.InsertAtPosition | backend/backend/services/statusPageService.js:814 | an event placed at its insertion point keeps the order and adds exactly that event |
| StatusPageEvents.SortByStart | backend/backend/services/statusPageService.js:814 | the sort gives ascending start dates and a permutation of its input |
| StatusPageEvents.DistinctIdsPermutation | backend/backend/services/statusPageService.js:814 | sorting keeps ids distinct |
| StatusPageEvents.DistinctIdsOnce | backend/backend/services/statusPageService.js:807-811 | in a list of distinct ids each event occurs exactly once |
| StatusPageEvents.MonitorIdsOfFirstPage | backend/backend/services/statusPageService.js:687-693 | the monitor ids used are exactly those of the first page that has monitors, in order, or none when no page has any |
| StatusPageEvents.EventsPerMonitor | backend/backend/services/statusPageService.js:697-733 | one event list per monitor, in monitor order |
| StatusPageEvents.GetEvents | backend/backend/services/statusPageService.js:670-755 | fails with "no monitor to check" exactly when no page has monitors; otherwise returns `MergedEvents` of the events of the first such page's monitors, in monitor order, with distinct ids, and their number |
| StatusPageEvents.LimitOrDefault | backend/backend/services/statusPageService.js:763-767 | a missing or zero limit is 5; any other limit is kept |
| StatusPageEvents.GetFutureEvents | backend/backend/services/statusPageService.js:757-828 | fails exactly when no page has monitors; otherwise the result is the limitEvents cut of a sorted-by-start permutation of `MergedEvents` of the first such page's monitors' events, with distinct ids, and the count is the number before the cut |
| StatusPageDomains.DomainsAfterCreate | backend/backend/services/statusPageService.js:125-133 | a host name already on the page is rejected with "Domain already exists"; otherwise exactly one entry is appended and earlier entries are unchanged |
| StatusPageDomains.CreateDomain | backend/backend/services/statusPageService.js:89-187 | a missing token is created first in every case; a missing page fails; a duplicate leaves the list; otherwise the entry is appended with the existing or new token, and a certificate is requested exactly for auto-provisioned HTTPS without a stored certificate; the monitors are kept |
| StatusPageDomains.WithoutId | backend/backend/services/statusPageService.js:351-356 | the remaining entries are exactly those whose id differs |
| StatusPageDomains.WithoutIdAppend | backend/backend/services/statusPageService.js:351-356 | the filter keeps order: filtering a concatenation filters each part |
| StatusPageDomains.WithoutIdUnchanged | backend/backend/services/statusPageService.js:351-356 | nothing is dropped exactly when no entry has the id |
| StatusPageDomains.LastWithId | backend/backend/services/statusPageService.js:350-354 | deletedDomain ends as the last entry with the id, or null when none has it |
| StatusPageDomains.FilterDomains | backend/backend/services/statusPageService.js:350-356 | the filter keeps exactly the entries whose id differs, in order, and records the last entry with the id (none when no entry has it) |
| StatusPageDomains.DeleteDomain | backend/backend/services/statusPageService.js:336-376 | a missing page fails; when no entry has the id, reading deletedDomain.enableHttps throws and nothing is saved; otherwise the id's entries are dropped in order and the certificate is removed exactly when the deleted entry was auto-provisioned HTTPS; the monitors are kept |
| StatusPageDomains.RenamedDomainsMeaning | backend/backend/services/statusPageService.js:203-214 | only host names of entries carrying the token change, and only by replacing the first occurrence of the old name |
| StatusPageDomains.UpdateCustomDomain | backend/backend/services/statusPageService.js:191-224 | pages are renamed in order; it fails with the TypeError of reading `_id` of a null token exactly when some page holds an entry whose token is missing, and then the pages before the first such page are renamed while it and later pages keep their domains; the monitors of every page are kept |
| StatusPageDomains.RenameOnPage | backend/backend/services/statusPageService.js:201-219 | one page: it fails exactly when an entry's token is missing, leaving the page as it was; otherwise its domains are renamed; its monitors are kept |
| StatusPageDomains.DomainsAfterUpdate | backend/backend/services/statusPageService.js:267-324 | rejected exactly when an entry with the id would take a host name already in use; otherwise every entry with the id is overwritten and the others are kept |
| StatusPageDomains.UpdateKeepingName | backend/backend/services/statusPageService.js:272-276 | keeping an entry's host name never triggers the in-use check |
| StatusPageDomains.UpdateDomain | backend/backend/services/statusPageService.js:226-334 | a missing page fails; a taken new name fails without saving; otherwise the list is as above, and a certificate is requested exactly when some entry was overwritten with auto-provisioned HTTPS and no stored certificate; the monitors are kept |
| StatusPageDomains.WithoutMonitor | backend/backend/services/statusPageService.js:457-460 | with the evident intent of comparing monitor ids, the kept entries are exactly those for other monitors (see Findings) |
| StatusPageDomains.WithoutMonitorLength | backend/backend/services/statusPageService.js:457-462 | with that comparison, the filtered list is shorter exactly when the monitor was on the page, and equal to it otherwise |
| StatusPageDomains.RemoveMonitorFromPage | backend/backend/services/statusPageService.js:457-469 | corrected: one page loses its entries for the monitor and keeps its domains; it is written exactly when the monitor was on it |
| StatusPageDomains.RemoveMonitor | backend/backend/services/statusPageService.js:449-476 | corrected: every page found loses its entries for the monitor and keeps its domains; exactly the pages that listed it are written |
| StatusPageDomains.WithoutMonitorAsWritten | backend/backend/services/statusPageService.js:457-460 | as written, the filter keeps exactly the entries whose populated field does not print as the monitor id |
| StatusPageDomains.AsWrittenRemovesNothing | backend/backend/services/statusPageService.js:8-34 | as written, for any ObjectId text the filter keeps every populated entry, so no list gets shorter and no page is written |
| StatusPageDomains.AsWrittenKeepsListedMonitor | backend/backend/services/statusPageService.js:449-462 | a page listing the monitor once keeps it as written, while comparing the ids removes it |
| StatusPageAccess.Resolves | backend/backend/services/statusPageService.js:1020-1045 | a public page is permitted; a private page is permitted exactly for a logged-in member of its project |
| StatusPageAccess.IsPermittedAsWritten | backend/backend/services/statusPageService.js:1018-1046 | as written, the awaited result is the resolver function, truthy for every page and visitor |
| StatusPageAccess.AccessCheckAsWritten | backend/backend/services/statusPageService.js:936-944 | as written, the check in getStatusPage never rejects |
| StatusPageAccess.PrivatePageAdmitsAnonymous | backend/backend/services/statusPageService.js:1046 | a visitor who is not logged in is refused by the predicate but admitted by the check as written |
| StatusPageAccess.IsPermitted | backend/backend/services/statusPageService.js:1018-1051 | the corrected isPermitted's answer is the predicate |
| StatusPageAccess.AccessCheck | backend/backend/services/statusPageService.js:936-944 | the corrected check rejects as unauthorized exactly a private page opened by a non-member |
| StatusPageAccess.AccessChecksAgree | backend/backend/services/statusPageService.js:936-1046 | the two checks agree exactly on the visitors the predicate admits |
| CopilotActions.CopilotActionBase.constructor | Copilot/Service/CopilotActions/CopilotActionsBase.ts:36-43 | the action keeps the configured model type, its type and its accepted extensions |
| CopilotActions.CopilotActionBase.OnBeforeExecute | Copilot/Service/CopilotActions/CopilotActionsBase.ts:45-61 | the variables pass unchanged exactly when the accepted entry find picks exists and is non-empty; otherwise NotAcceptedFileExtention with its message |
| CopilotActions.CopilotActionBase.RejectionMessage | Copilot/Service/CopilotActions/CopilotActionsBase.ts:55-57 | the message names the text after the last '.' of the path (the whole path without one), then the action type |
| CopilotActions.LastPiece | Copilot/Service/CopilotActions/CopilotActionsBase.ts:56 | split(".").pop() is a '.'-free end of the path that follows a '.' unless it is the whole path |
| CopilotActions.FirstContaining | Copilot/Service/CopilotActions/CopilotActionsBase.ts:50-54 | find returns the first entry containing the extension, or nothing when none does |
| CopilotActions.AcceptedIff | Copilot/Service/CopilotActions/CopilotActionsBase.ts:50-60 | for a non-empty extension the gate passes exactly when some entry contains it; for an empty one, exactly when the first entry is non-empty |
| CopilotActions.LineEnd | Copilot/Service/CopilotActions/CopilotActionsBase.ts:132-133 | the end of a line is its first line terminator, or the end of the text |
| CopilotActions.FenceMatchUnique | Copilot/Service/CopilotActions/CopilotActionsBase.ts:132-133 | a match at a position has its newline at the end of the fence line and its closing fence at the first fence after it |
| CopilotActions.FenceMatchFrom | Copilot/Service/CopilotActions/CopilotActionsBase.ts:132-133 | the regular expression's leftmost match and its captured group, or none when nothing matches |
| CopilotActions.GroupHasNoFence | Copilot/Service/CopilotActions/CopilotActionsBase.ts:132-137 | a captured group holds no fence |
| CopilotActions.MatchedGroup | Copilot/Service/CopilotActions/CopilotActionsBase.ts:132-137 | the leftmost group is a piece of the answer with no fence |
| CopilotActions.Cleanup | Copilot/Service/CopilotActions/CopilotActionsBase.ts:111-138 | an empty or unfenced answer is returned unchanged; otherwise the captured group of the leftmost match (no match starts earlier), or "" without a match; the result is always a piece of the answer and holds no fence |
| CopilotActions.FillVarsInPrompt | Copilot/Service/CopilotActions/CopilotActionsBase.ts:187-222 | both prompts have every placeholder of every entry replaced, entry by entry; the call fails naming the prompt when a `{{…}}` is left on one line of it, then the system prompt; otherwise it returns the filled prompts, which hold no placeholder |
| CopilotActions.FillWithoutBraces | Copilot/Service/CopilotActions/CopilotActionsBase.ts:196-202 | text without `{{` is left as it is and has nothing left to fill |
| CopilotActions.FillSinglePlaceholder | Copilot/Service/CopilotActions/CopilotActionsBase.ts:196-202 | a template made of one placeholder becomes that entry's value |
| CopilotActions.SpanAt | Copilot/Service/CopilotActions/CopilotActionsBase.ts:206-216 | `{{` starts a leftover match exactly when the first `}}` after it is on the same line |
| CopilotActions.UnfilledFrom | Copilot/Service/CopilotActions/CopilotActionsBase.ts:206-216 | the search finds a leftover exactly when one starts at or after the position |
| CopilotActions.HasUnfilled | Copilot/Service/CopilotActions/CopilotActionsBase.ts:206-216 | the match is non-null exactly when a `{{…}}` is left on one line |
| CopilotActions.ExecutePipeline | Copilot/Service/CopilotActions/CopilotActionsBase.ts:147-170 | an unaccepted file fails before the prompt; an unfillable prompt fails before the model; the result is null exactly when isNoOperation holds, otherwise onAfterExecute of the cleaned answer |
| CopilotActions.CopilotActionBase.Execute | Copilot/Service/CopilotActions/CopilotActionsBase.ts:147-170 | an unaccepted file fails with the rejection message; a result needs the gate passed and the prompt filled; a non-null result means isNoOperation did not hold of the answer |
| CopilotActions.CopilotActionBase.GetPrompt | Copilot/Service/CopilotActions/CopilotActionsBase.ts:176-185 | a failing _getPrompt fails getPrompt; otherwise it succeeds exactly when neither filled prompt leaves a one-line `{{…}}`, fails naming the prompt first, and a success is the action's prompt filled with the variables and holds no placeholder |
| CopilotActions.CopilotActionBase.PullRequestTitle | Copilot/Service/CopilotActions/CopilotActionsBase.ts:78-82 | the title starts with "OneUptime Copilot: " and ends with the file path |
| CopilotActions.CopilotActionBase.CommitMessage | Copilot/Service/CopilotActions/CopilotActionsBase.ts:105-109 | the commit message starts with "OneUptime Copilot: " and ends with the file path |
| CopilotActions.ExecuteWithBaseHooks | Copilot/Service/CopilotActions/CopilotActionsBase.ts:63-69 | with the base hooks the result is the cleaned answer; with the base prompt, execute always fails with NotImplemented |
| CopilotActions.TitleIsCommitMessage | Copilot/Service/CopilotActions/CopilotActionsBase.ts:78-109 | the pull-request title equals the commit message, and different files get different titles |
| Telemetry.GetHeaders | CommonServer/Utils/Telemetry.ts:33-51 | an unset or empty variable gives an empty map; otherwise the loop over the `;` pieces builds `HeadersOf` of their `=` splits, where a pair keyed `__proto__` stores nothing (the plain object's inherited setter ignores a string) |
| Telemetry.HeaderKeys | CommonServer/Utils/Telemetry.ts:43-48 | a key is present exactly when it is not `__proto__` and some piece splits into two parts with that key |
| Telemetry.HeaderLastWins | CommonServer/Utils/Telemetry.ts:43-47 | for a repeated key other than `__proto__` the last two-part piece wins |
| Telemetry.HeaderEntriesFromPieces | CommonServer/Utils/Telemetry.ts:38-48 | every entry comes from one two-part piece |
| Telemetry.HeadersHaveNoSeparators | CommonServer/Utils/Telemetry.ts:38-46 | no key or value contains ';' or '=' |
| Telemetry.OtlpEndpoint | CommonServer/Utils/Telemetry.ts:53-59 | null exactly when the variable is unset or empty, and otherwise its value |
| Telemetry.SignalEndpoints | CommonServer/Utils/Telemetry.ts:61-89 | each signal endpoint is null exactly when the base is unset, and otherwise the base followed by "/v1/logs", "/v1/metrics" or "/v1/traces"; the three differ |
| Telemetry.SignalEndpoint | CommonServer/Utils/Telemetry.ts:61-89 | null exactly when the base is unset; otherwise the base followed by the path |
| Telemetry.LogsEndpoint | CommonServer/Utils/Telemetry.ts:61-69 | null exactly when the base is unset; otherwise the base followed by "/v1/logs" |
| Telemetry.MetricsEndpoint | CommonServer/Utils/Telemetry.ts:71-79 | null exactly when the base is unset; otherwise the base followed by "/v1/metrics" |
| Telemetry.TracesEndpoint | CommonServer/Utils/Telemetry.ts:81-89 | null exactly when the base is unset; otherwise the base followed by "/v1/traces" |
| JsBuiltins.Split | CommonServer/Utils/Telemetry.ts:38-44 | split gives at least one piece, joining the pieces gives back the text, and no piece holds the separator |
| JsBuiltins.ReplaceFirst | backend/backend/services/statusPageService.js:208-211 | replace with a string pattern replaces only the first occurrence, and leaves text without it unchanged |
| JsBuiltins.ReplaceAllIsSplitJoin | Copilot/Service/CopilotActions/CopilotActionsBase.ts:196-202 | a global literal replace is a split on the pattern joined with the replacement |
| JsBuiltins.ReplaceAllSelf | Copilot/Service/CopilotActions/CopilotActionsBase.ts:196-202 | replacing a pattern by itself changes nothing |
| Port.ParseIntOfDecimal | Common/Types/Port.ts:41 | parseInt base 10 reads back exactly the number toString wrote |
| Port.DecimalStringIsValid | Common/Types/Port.ts:38-55 | the decimal text of each port number is valid and denotes that number |
| Port.NonNumericStringIsInvalid | Common/Types/Port.ts:39-54 | a string without digits parses to NaN and is not a valid port |
| Port.ValidThroughPositiveNumber | Common/Types/Port.ts:47-49 | wrapping the input's number in a PositiveNumber neither loses nor gains validity |
| Port.Port.Init | Common/Types/Port.ts:10 | a new object starts at port 0 |
| Port.Port.SetPort | Common/Types/Port.ts:15-21 | the setter stores exactly the valid values; otherwise it throws "Port is not in valid format." and keeps the old port; the range invariant is kept |
| Port.NewPort | Common/Types/Port.ts:57-60 | construction succeeds exactly for valid input and then holds its number; otherwise it throws the setter's error |
| Port.PortNumberOf | Common/Types/Port.ts:51-54 | a constructed port is always in 0..65535 |
| Port.JsonPortInput | Common/Types/Port.ts:30-33 | fromJSON goes on exactly when `_type` is the Port tag, and a falsy `value` becomes "" |
| Port.FromJsonNumber | Common/Types/Port.ts:30-36 | a wrong `_type` fails with Invalid JSON; a success is in 0..65535 |
| Port.FromJSON | Common/Types/Port.ts:30-36 | the object is made exactly when FromJsonNumber succeeds, with that port, and otherwise fails with the same error |
| Port.JsonRoundTrip | Common/Types/Port.ts:23-33 | fromJSON(toJSON(p)) holds the port of p |
| Port.JsonZeroNumberRejected | Common/Types/Port.ts:32 | a numeric `value` of 0 is falsy, so fromJSON fails on it |
| Port.Port.ToJSON | Common/Types/Port.ts:23-28 | the JSON form is tagged Port and holds non-empty decimal text that parseInt reads back as the port |
| Port.Port.ToString | Common/Types/Port.ts:86-88 | the text is non-empty decimal digits that parseInt reads back as the port |
| Port.Port.ToNumber | Common/Types/Port.ts:90-92 | a valid port object gives a number in 0..65535 |
| Port.ToDatabase | Common/Types/Port.ts:62-76 | a Port becomes its number; a string goes through the constructor and may fail; anything else becomes null |
| Port.FromDatabaseNumber | Common/Types/Port.ts:78-84 | a falsy column gives null; a non-null numeric result is in 1..65535 |
| Port.FromDatabase | Common/Types/Port.ts:78-84 | the method agrees with FromDatabaseNumber on success, on null and on the port held |
| Port.DatabaseRoundTrip | Common/Types/Port.ts:62-84 | toDatabase then fromDatabase keeps every non-zero port and turns port 0 into null |

## Left out

- Database queries, soft-delete flags and `save` are not modelled. `populate` is modelled only where the code reads what it leaves: an entry whose verification token no longer exists has `None` as its token, and removeMonitor's as-written filter sees populated monitor entries. The query results are inputs: the note table, the event lookup, the resource query, the subscribers, the status pages found, and the verification-token and certificate lookups.
- The mail, SMS and Slack transports are out. So are Markdown rendering, date formatting, `getStatusPageURL`, `getUnsubscribeLink`, `shouldSendNotification` and `getStatusPagesToSendNotification`. They are collaborator functions of the job.
- `URL` class internals are out. The logo address and the OTLP endpoints are modelled as string concatenation.
- The SMS body layout, with its indentation and blank lines, is out. The SMS is recorded as the four values it is made of.
- The query caps `LIMIT_MAX` and `LIMIT_PER_PROJECT` are not modelled: the queries return whole lists.
- Concurrency is not modelled:
  - the `.catch` on detached sends;
  - the `Promise.all` fan-outs in `getEvents`, `getFutureEvents` and `removeMonitor`, which run sequentially here in list order;
  - greenlock certificate requests and removals, which run in the background and are reported as flags.
- UpdateCustomDomain and RemoveMonitor require the status pages to be distinct objects. Mongoose returns distinct documents, and the model does not reason about aliasing between them.
- UpdateDomain: when the new name is taken, the source has already mutated the entries before the loop broke. Those changes stay in memory but are never saved. The model leaves the page unchanged in that case.
- Identifiers are modelled as their text and compared by value. Where the source compares with `String(…)` on plain ids this is what it does; `removeMonitor` stringifies populated objects instead (see Findings).
- StatusPageStatus.KeptEntries compares probe ids by value. filterProbeData uses `===`, which on two `ObjectId` instances is reference identity, so the source may drop entries the model keeps. The model also maps a null and a missing `_id` both to None, while `=== null` keeps only a null one.
- StatusPageEvents.LimitOrDefault and StatusPageEvents.SkipOrDefault take numbers only. The source parses a string skip or limit with `parseInt` after the falsy default, so a limit of "0" gives 0 and an empty page (a numeric 0 gives 5), and "abc" gives NaN and an empty page. String arguments are not modelled.
- LimitEvents: a negative or non-integer skip or limit follows `Array.prototype.slice` on integer positions only. Fractional values are not modelled.
- The sort comparator `a.startDate - b.startDate` is modelled as an ordering by integer timestamps. The stability of `Array.prototype.sort` is not stated: SortByStart promises ascending order and a permutation.
- `getEvents` applies skip and limit only to the status-page query (`findBy(query, 0, limit)`). Its event list is returned whole, and the model does the same. The `theme` switch only changes the event query, which is a parameter here.
- These service functions are not part of this model: `getStatusPage` (beyond its `isPermitted` check), `getEvent`, `getEventsByDate`, `countBy`, `deleteBy`, `getSubProjectStatusPages`, `doesDomainExist` (its answer is the `newDomainTaken` input), and the other Mongo wrappers.
- Copilot:
  - The language model, `getFileExtension`, and the hooks a concrete action overrides are parameters.
  - `getBranchName` is out because it draws random text.
  - `getPullRequestBody` and `getDefaultPullRequestBody` are out: they are fixed text around the same values.
- CopilotActions.Entries fixes the order in which `Object.entries` lists the variables to their declaration order (code, filePath, fileCommitHash, fileLanguage). The order of a caller's object is not modelled. It matters only when one value holds another key's placeholder.
- JsBuiltins.ReplaceFirst and JsBuiltins.ReplaceAll do not model `$` substitution patterns in the replacement string.
- Telemetry: `init()` is out. It covers the OpenTelemetry SDK set-up, the global logger provider and the SIGTERM handler.
- Port:
  - Common/Types/PositiveNumber.ts is not part of this model. A `PositiveNumber` is modelled as the number it wraps, and its string form is assumed to be trimmed and parsed with `parseInt(…, 10)` as `isValid` does.
  - The Zod and OpenAPI schema helpers are out.
- Port.JsonRoundTrip and Port.JsNumber: JavaScript numbers are modelled as integers or NaN. A fractional port such as 80.5 passes `isValid`, and `toJSON` then `fromJSON` turns it into 80. Fractional numbers are not modelled, so the round trip is stated for integer ports only.
- Port.Port.ToString and Port.Port.ToJSON require the object's range invariant, which every constructor and the setter keep.
- Port.ToDatabase takes a Port, a string or a query operator. The source's separate `parseInt` branch for a string is unreachable, because a string has already become a Port by then, so it is not modelled.

## Findings

| source | as written | input that shows it | evidently intended | confidence | as-written member | corrected member |
|---|---|---|---|---|---|---|
| backend/backend/services/statusPageService.js:1018-1051 | `isPermitted` returns the inner resolver function `fn` rather than its result, and `getStatusPage` tests `if (!permitted)` on that function value, which is always truthy | a private status page requested with no `userId`: the resolver would resolve `false`, yet the check admits the visitor | the check rejects a private page unless a logged-in member of its project asks | not executed | StatusPageAccess.AccessCheckAsWritten (with StatusPageAccess.PrivatePageAdmitsAnonymous) | StatusPageAccess.AccessCheck |
| backend/backend/services/statusPageService.js:457-462 | `removeMonitor` filters on `String(monitorData.monitor) !== String(monitorId)`, but the pages come from `findBy`, which populates `monitors.monitor` (lines 27-28), so the left side prints as "[object Object]" or "null" | a page whose monitors are [{monitor: M}] and `removeMonitor(M)`: the entry is kept, the lengths are equal and nothing is saved | the entries for the monitor are removed and exactly the pages that listed it are saved | not executed | StatusPageDomains.WithoutMonitorAsWritten (with StatusPageDomains.AsWrittenRemovesNothing and StatusPageDomains.AsWrittenKeepsListedMonitor) | StatusPageDomains.RemoveMonitor |
