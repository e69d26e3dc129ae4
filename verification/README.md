# Flood-risk platform: proofs about its operational core

This Dafny project models the parts of the flood-risk platform whose behaviour is hard to see from
one function, and proves what they promise. `dafny verify dfyconfig.toml` checks all of it.

| part | modules | main results |
|---|---|---|
| Migration runner | Migrations, MigrationRun, MigrationProtocol, MigrationSolo | any number of runners against one database, crashing anywhere: no SQL twice, rows match effects, crashes leave no trace |
| Catalog renderer | Catalog, CatalogText, CatalogLines, CatalogRun, CatalogCheck, CatalogStale, CatalogDrift | rendering is a fixed point of itself and keeps every other line; the exact inputs on which a second run changes the file; exactly which sources the check reports |
| Follow-up report | Followups, FollowupsMeaning, FollowupsProof, FollowupsRun | what a report and a sanitised overlay hold; the sanitised overlay gives the same report as the raw overlays; sanitising is idempotent |
| Event sampler | Sampler | county coverage, quotas and the priority of nationwide places survive the last shuffle and truncation |
| State in issue bodies | Marker, MarkerMatches, MarkerRoundTrip | what the marker expression matches; exact conditions for printing and parsing, in both forms |
| Watchdog comments | Stamps, StateText, Watchdog, Canonical | what the state means over whole runs, a bound on comments, and what its digest distinguishes |
| Alert issues | RouteAlert, RouteLife, RouteText, RouteSteps | one open issue per title, call by call and request by request, and what an issue shows through its whole life and any interleaving |
| JSON pointers | JsonPointer, JsonPointerExact | a round trip with sections 3 and 4 of RFC 6901, and exactly when each pointer resolves, to what, and how it fails |
| Connection pools | PoolCache, PoolReturns | double-checked lookup and close-all by any threads, and exactly when the pool returned is open |
| Evidence manifests | Evidence, EvidenceFailures, EvidenceArtifact, EvidenceTemplate | what the validators accept, and exactly which failures they report, for both kinds of key |
| Metrics | Prometheus | the printed text is read back by a reader of the text format |
| Completion gates | GateBlockers | two independently written programs agree |

`Text`, `Lists`, `Sorting` and `Json` hold the string, list, stable-sort and JSON operations the
scripts take from their languages. A stable sort is determined by its input
(`Sorting.StableSortUnique`), so nothing rests on how it is written here.

Code that works step by step is a method with loops, or a class whose fields the methods update,
proved equal to a specification function; the properties are then lemmas about that function.
Protocols with several processes or threads are transition systems over their atomic steps.

## Where the code does not do what it is for

Each of these is proved, with the exact condition beside it.

- Rendering a catalog file twice can change it (`CatalogText.FileIdempotent`,
  `CatalogDrift.SecondRunDrifts`): a lone carriage return at the end of the file becomes half of a
  CRLF pair. On texts the carriage returns that pile up are the case (`CatalogText.TextIdempotent`,
  `CatalogText.TextDrifts`).
- File name order is version order only for ASCII digits (`Migrations.NameOrderIsVersionOrder`,
  `Migrations.LoadedIncreasing`).
- A JSON pointer whose first token is empty, with more tokens after it, resolves elsewhere
  (`JsonPointer.FaithfulExactly`, `JsonPointer.EmptyTokenLost`).
- With more than 100 open issues a second alert issue can be opened for a title
  (`RouteAlert.UniqueStep`, `RouteAlert.HiddenIssueDuplicated`), and so it can by two calls at once
  (`RouteSteps.UniqueExactly`, `RouteSteps.RaceDuplicates`). An alert whose comment request fails is
  lost (`RouteSteps.LostAlert`).
- A marker opener left in a report makes the written state unreadable (`MarkerRoundTrip.RoundTripAll`,
  `MarkerRoundTrip.RoundTripFirst`, `Watchdog.LeftOpenerForgets`, `RouteLife.LeftOpenerForgets`).
- A lookup can return a pool that a close-all in progress has closed (`PoolReturns.ReturnsOpen`,
  `PoolReturns.StaleReturn`).
- An evidence template passes when only its status is filled in: the placeholder texts count as
  values (`EvidenceTemplate.StatusAlonePasses`).
- Metric lines are grouped only when the samples are (`Prometheus.GroupedExactly`).

## Model

| member | source | states |
|---|---|---|
| Migrations.MigrationFiles | infra/scripts/apply_migrations.py:232-260 | The directory is accepted exactly when it is not empty, every name has the migration form and no version comes twice; then there is one migration per file, in name order, with the stripped SQL and its checksum, and in increasing order of versions when the names start with ASCII digits. |
| Migrations.NameExactly | infra/scripts/apply_migrations.py:19-19 | A name has the migration form exactly when it is four digits, an underscore, a word of small letters, digits and underscores, and `.sql`. |
| Migrations.LoadedFields | infra/scripts/apply_migrations.py:243-252 | A loaded file keeps its name; its SQL is the text without the white space around it, its checksum that text's, and its version the number its four ASCII digits read as. |
| Migrations.NameOrderIsVersionOrder | infra/scripts/apply_migrations.py:19-19 | Name order puts the versions of every accepted directory in increasing order if and only if `\d` stands for the ASCII digits alone. Python's `\d` accepts others. |
| Migrations.AcceptedIncreasing | infra/scripts/apply_migrations.py:232-253 | With ASCII digits, every accepted directory sorts into strictly increasing versions. |
| Migrations.LoadedIncreasing | infra/scripts/apply_migrations.py:232-253 | Under any `\d`, Python's own included, a directory whose names start with ASCII digits loads in increasing order of versions. |
| Migrations.OtherDigitBreaksOrder | infra/scripts/apply_migrations.py:19-19 | For any further digit, two files named with it and with `9999_a.sql` are accepted and come out in the wrong order. |
| MigrationRun.RecordedMigrations | infra/scripts/apply_migrations.py:187-204 | The dictionary holds the manifest rows by version; otherwise the first row of the wrong length, or without an integer version, is the error. |
| MigrationRun.ValidateRecorded | infra/scripts/apply_migrations.py:207-229 | No drift is reported exactly when every recorded version is local with the same filename and checksum. Missing versions are all named and come before any other drift; else the first row that does not agree is the one reported, with the kind of its drift. |
| MigrationRun.ApplyMigrations | infra/scripts/apply_migrations.py:99-151 | A call that meets drift changes no rows and runs no SQL. Otherwise the rows and the SQL committed grow by exactly the pending files before the first whose SQL fails, and the summary splits the local files into applied and skipped. The lock is free again in every case. |
| MigrationProtocol.StepInv | infra/scripts/apply_migrations.py:113-149 | Every step of every runner, a crash included, keeps the invariant: one holder of the lock, a holder's rows unchanged behind its back since it read them, rows and committed SQL in step. |
| MigrationProtocol.Safety | infra/scripts/apply_migrations.py:113-149 | For any number of runners, any interleaving and any crashes: at most one runner is between lock and disconnect, no version's SQL is committed twice, and the rows are the records of the committed files, one for one. The proof uses the lock and the read after it, not the primary key. |
| MigrationProtocol.Truthful | infra/scripts/apply_migrations.py:126-151 | In every reachable state `applied` names exactly the files whose SQL this runner committed, and a runner that met drift has committed none. |
| MigrationProtocol.FinishedExact | infra/scripts/apply_migrations.py:131-151 | A runner whose loop is done leaves exactly its own files in the manifest; since checksums identify SQL, exactly its files' SQL was ever committed; `applied` and `skipped` are its pending and its recorded files. |
| MigrationProtocol.RecordedPrefix | infra/scripts/apply_migrations.py:126-149 | When all checkouts are prefixes of one list, the recorded rows and the committed SQL are a prefix of it in every reachable state, so SQL commits in increasing version order. |
| MigrationProtocol.VersionsIncrease | infra/scripts/apply_migrations.py:126-148 | When the common list is what a directory with ASCII-numbered names loads as, SQL commits in increasing version order. |
| MigrationProtocol.CommitsInOrder | infra/scripts/apply_migrations.py:131-148 | Each commit adds the next file of the common list and no other. |
| MigrationProtocol.CrashesLeaveNoTrace | infra/scripts/apply_migrations.py:113-151 | Two histories, with whatever crashes, that each end with a finished runner of the same checkout have the same rows and the same SQL in the same order. |
| MigrationSolo.SoloRun | infra/scripts/apply_migrations.py:113-151 | From any reachable state with a free lock and no drift, a schedule exists in which a new runner finishes, adding exactly what was pending: crashes never leave the database stuck. |
| Catalog.LinesIdempotent | infra/scripts/render_source_catalog_runtime_state.py:145-194 | Rendering rendered lines changes nothing, for every text, although the second pass cuts the entries anew. |
| Catalog.LinesPreserved | infra/scripts/render_source_catalog_runtime_state.py:145-194 | The lines that are not `runtime_state` lines are the same before and after, in the same order. |
| Catalog.EntryCarries | infra/scripts/render_source_catalog_runtime_state.py:204-220 | A rendered entry has its expected state on exactly one line, directly after the first status line or else after its first line; an entry without an expected state has no such line. |
| Catalog.EntriesRendered | infra/scripts/render_source_catalog_runtime_state.py:160-191 | Cutting the rendered text into entries gives the rendered entries, one for one. |
| Catalog.RenderedEntriesCarry | infra/scripts/render_source_catalog_runtime_state.py:160-220 | So in the rendered text every entry carries what its key is expected to have, and the keys that are missing are those that were missing. |
| CatalogLines.SectionBounds | infra/scripts/render_source_catalog_runtime_state.py:153-194 | Everything up to the first line `sources:` stays; the section, up to the first line that is neither empty nor a comment nor indented, is rendered by itself; that line stays, and behind it the search for a section starts again. |
| CatalogLines.KeyLineExactly | infra/scripts/render_source_catalog_runtime_state.py:197-201 | A line opens an entry with a key exactly when it is the dash prefix, a field name before the first colon that is `key` but for white space, and that key but for white space and quotes. |
| CatalogLines.StateLineExactly | infra/scripts/render_source_catalog_runtime_state.py:223-224 | A line states a runtime state exactly when it is the field's name at four spaces, a colon, and that state but for white space. (`CatalogLines.StatusLineExactly` has the status line.) |
| CatalogText.NormaliseUndoesCrlf | infra/scripts/render_source_catalog_runtime_state.py:227-243 | CRLF-to-LF undoes LF-to-CRLF on every string. |
| CatalogText.TextIdempotent | infra/scripts/render_source_catalog_runtime_state.py:145-194 | Rendering a rendered text changes nothing, except exactly when a line of the input that is kept, and that the output does not end with, still ends in a carriage return once line breaks are normalised. There is none when the input had no bare carriage return. |
| CatalogText.TextDrifts | infra/scripts/render_source_catalog_runtime_state.py:153-153 | The shortest such text, `\r\r\n`: rendered once and twice it gives two different texts. |
| CatalogText.FileIdempotent | infra/scripts/render_source_catalog_runtime_state.py:227-243 | Rendering a file twice is rendering it once, except exactly when the file has no CRLF pair, ends in a lone carriage return, and that return ends the line after which the last entry's state is inserted. |
| CatalogLines.FileEndings | infra/scripts/render_source_catalog_runtime_state.py:227-243 | A file with a CRLF gets CRLF on every line, one without carriage returns gets none; in both cases it reads back as the rendered lines. |
| CatalogDrift.SecondRunDrifts | infra/scripts/render_source_catalog_runtime_state.py:227-243 | Concrete files of the exceptional kind, for every plain key and state, on which the second run changes the file. |
| CatalogRun.RenderCatalogText | infra/scripts/render_source_catalog_runtime_state.py:145-194 | The line loop, with its open entry, its section flag and its seen keys, computes the specified text, and reports exactly the expected keys that have no entry. |
| CatalogRun.RenderEntryLines | infra/scripts/render_source_catalog_runtime_state.py:204-220 | The loop that looks for the anchor line computes the specified entry. |
| CatalogRun.LoadRuntimeStates | infra/scripts/render_source_catalog_runtime_state.py:64-99 | Loading fails on an empty list, at the first entry that is not a mapping or lacks its strings, and on unmapped decisions, which are then all named; otherwise a key has the state of its last source. |
| CatalogRun.DecisionTable | infra/scripts/render_source_catalog_runtime_state.py:33-49 | Exactly which decisions give each of the five states. |
| CatalogRun.RegistryLast | infra/scripts/render_source_catalog_runtime_state.py:75-90 | A key has the state of its last registry entry; without one it is `unregistered` (`CatalogRun.RegistryNone`). |
| CatalogRun.ExpectedRuntimeStates | infra/scripts/render_source_catalog_runtime_state.py:102-119 | Every catalog key, and no other, gets its registry state or `unregistered`; an entry without a string key is an error. The states are single plain words, as the renderer needs. |
| CatalogCheck.CheckAfterRender | infra/scripts/render_source_catalog_runtime_state.py:122-142 | After any successful render the check reports no difference: when a key occurs twice, and on the files that a second render would change, too. |
| CatalogStale.ReportedExactly | infra/scripts/render_source_catalog_runtime_state.py:122-142 | A key is reported if and only if it is expected and no entry has it, or the last entry that has it carries no `runtime_state` line, or another state on the last such line (a repeated YAML key overwrites). |
| CatalogStale.OnlyThatEntry | infra/scripts/render_source_catalog_runtime_state.py:160-191 | Rewriting the lines of one entry, whatever stands around it, changes that entry of the cut and no other. |
| CatalogStale.RewrittenInPlace | infra/scripts/render_source_catalog_runtime_state.py:160-191 | The new lines stand where the old ones stood, and every line outside the entry stays. |
| CatalogStale.EditReported | infra/scripts/render_source_catalog_runtime_state.py:122-142 | Deleting the line that a render placed in a key's last entry, or writing another state on it, adds exactly that key to what the check reports. |
| FollowupsProof.SanitisedReport | scripts/local-source-request-followups.py:117-252 | Whenever sanitising succeeds, the report from the sanitised overlay is the report from the raw overlays in every field, the order of the overdue items included; one fails on its due dates exactly when the other does. |
| FollowupsProof.SanitisedTwice | scripts/local-source-request-followups.py:184-252 | Sanitising a sanitised overlay succeeds and changes nothing. |
| FollowupsProof.SameSorted | scripts/local-source-request-followups.py:152-162 | Two lists with the same items of each section in the same order sort to the same list: ties of the stable sort share a section. |
| FollowupsMeaning.FollowupReportHolds | scripts/local-source-request-followups.py:117-181 | There is a report exactly when every section is missing or an array of objects and every due date can be read. It is about one item for every raw entry with status `request_dispatched`, overlay by overlay and signals first, and holds what ReportIs says of them. |
| FollowupsMeaning.ReportIs | scripts/local-source-request-followups.py:117-163 | `overdue_items` has exactly the items whose due date is at or before the report's, each as often as it is dispatched, by due date, section and county, ties in dispatch order; pending are those with a later due date and missing those without one; the next due date is one of the due dates and at or before each. |
| FollowupsMeaning.ListsExactly | scripts/local-source-request-followups.py:273-294 | The items can be listed exactly when each section of each overlay is missing or an array of objects. |
| FollowupsMeaning.OverlayHolds | scripts/local-source-request-followups.py:184-252 | In an Ok overlay each section has, in overlay order, one entry for exactly the raw items whose status is `request_dispatched` or accepted for that section, with the raw county, kind and status, the redacted reference, the dates of its kind of item and no other field; the capture time is the newest. |
| FollowupsMeaning.SanitisesExactly | scripts/local-source-request-followups.py:216-270 | Sanitising succeeds exactly when each section is missing or an array of objects and every item kept for its accepted status has its four fields as strings that are neither blank nor placeholders. |
| FollowupsMeaning.SectionComplains | scripts/local-source-request-followups.py:216-270 | The failure of a section names its first bad entry, and of that entry the first field, in the order they are checked, that is not filled in. |
| FollowupsMeaning.PlaceholderExactly | scripts/local-source-request-followups.py:269-270 | An ASCII text is a placeholder exactly when it starts with the mark, in letters of either size. |
| FollowupsRun.DispatchItemsOf | scripts/local-source-request-followups.py:273-308 | The loop over a section collects its dispatched items in order, or fails at the first item that is not an object. |
| FollowupsRun.AllDispatchItems | scripts/local-source-request-followups.py:166-181 | The loop over the overlays collects the items of both sections, overlay by overlay. |
| FollowupsRun.SanitisedItemsOf | scripts/local-source-request-followups.py:216-270 | The loop over a section keeps dispatched and accepted items in their redacted form, and fails at the first one that may not pass. |
| Sampler.Selection.AppendUnique | scripts/event_public_value_smoke.py:491-500 | A location is added exactly when it is new; the key set stays the keys of the items. |
| Sampler.SameLocationExactly | scripts/event_public_value_smoke.py:503-508 | Two candidates without a bar in their first three fields share a key exactly when source, query, latitude and longitude are all the same; with bars they need not (`Sampler.BarsCollide`). |
| Sampler.Selection.TakeCounties | scripts/event_public_value_smoke.py:463-465 | At most one item for each county, and the location of every county's first candidate is among them. |
| Sampler.Selection.FillFocus | scripts/event_public_value_smoke.py:472-478 | The quota is met, or all candidates of the focus are in, or the sample is full; no more than the target is added. |
| Sampler.QuotasFit | scripts/event_public_value_smoke.py:467-471 | The counties and the two quotas leave room in the sample exactly from 81 on; the command line asks for 100. |
| Sampler.QuotaShare | scripts/event_public_value_smoke.py:467-471 | What meeting a quota means: at least 30 core alerts and 25 high concerns, and 35 percent of the sample, rounded down, of each; or all there are. |
| Sampler.SelectEventSamples | scripts/event_public_value_smoke.py:444-488 | For every outcome of the shuffles: locations are pairwise distinct, the size is the smaller of the sample size and the number of locations, and from 81 on every county with a candidate is reached, both quotas are met or exhausted, and a nationwide place is left out only if at most 22 places, one for each county, have another focus than the three, after the last shuffle and truncation. Holds whatever focus each candidate has. |
| Sampler.CountiesRepresented | scripts/event_public_value_smoke.py:463-465 | When a location lies in one county only, the counties reached are the counties represented. |
| MarkerMatches.FirstMatchExactly | scripts/ci/route-alert-issue.js:21-33 | The search finds exactly the leftmost match of the expression, with the shortest payload, at or after a position, and nothing exactly when there is none. |
| MarkerMatches.GlobalExactly | scripts/ci/local-source-watchdog-state.js:125-140 | The global form goes through the matches one behind the other: the payload read is the last one's, and stripping leaves exactly the text between them. |
| MarkerMatches.SingleExactly | scripts/ci/route-alert-issue.js:32-49 | The single form reads the first match and strips that one alone. |
| MarkerRoundTrip.RoundTripAll | scripts/ci/local-source-watchdog-state.js:125-140 | What the watchdog printed is read back if and only if the payload does not close early and no opener is left unclosed in the stripped text. |
| MarkerRoundTrip.RoundTripFirst | scripts/ci/route-alert-issue.js:32-47 | What the route alert printed is read back if and only if the payload does not close early and no opener is left in the stripped text, or the first marker already in that text has the same payload. |
| MarkerRoundTrip.LeftOpenerRead | scripts/ci/local-source-watchdog-state.js:125-140 | The failing side is reached: over a report that is a bare marker opener, both forms read the opener's brace and what follows it instead of what was printed. |
| MarkerRoundTrip.RenderOverAll | scripts/ci/local-source-watchdog-state.js:137-140 | Rendering over a rendered body is rendering over the original if and only if no opener survives stripping, when every match is stripped. |
| MarkerRoundTrip.RenderOverFirst | scripts/ci/route-alert-issue.js:44-47 | The same condition, also necessary, when only the first match is stripped. |
| Watchdog.CommentsExactly | scripts/ci/local-source-watchdog-state.js:165-183 | After an earlier comment, a run comments exactly when its digest is not the previous run's (an empty digest never is) or the last comment is at least a backoff old; so no suppressed run is that late. |
| Watchdog.ReasonsExactly | scripts/ci/local-source-watchdog-state.js:175-183 | After a comment, a run's reason is `digest_changed` exactly when its digest is new, `backoff_elapsed` exactly when it is not and the last comment is a backoff old, and `suppressed` otherwise. |
| Watchdog.FirstReasonsExactly | scripts/ci/local-source-watchdog-state.js:164-183 | Before the first comment the starting state's comment time decides in the same way; one that is missing or unreadable has elapsed. |
| Watchdog.FirstCommentExactly | scripts/ci/local-source-watchdog-state.js:165-183 | Before the first comment, the starting state's comment time decides; a time that cannot be parsed lets the run comment. |
| Watchdog.LastCommentKept | scripts/ci/local-source-watchdog-state.js:185-193 | The state holds the time of the last comment, whatever runs follow it. |
| Watchdog.StreakCounted | scripts/ci/local-source-watchdog-state.js:185-193 | The counters are the length and the start of the current streak of one digest; a new digest restarts both. |
| Watchdog.StreakInherited | scripts/ci/local-source-watchdog-state.js:185-193 | A streak the starting state was already in goes on counting from there. |
| Watchdog.CommentsBounded | scripts/ci/local-source-watchdog-state.js:154-200 | From any starting state and with a clock that does not go back, comments are at most 1 + digest changes + whole backoffs elapsed. |
| Watchdog.BoundReached | scripts/ci/local-source-watchdog-state.js:154-200 | Runs of one digest, each a backoff after the one before, all comment and meet the bound with equality. |
| Watchdog.BodyCarriesState | scripts/ci/local-source-watchdog-state.js:125-200 | With the body written back after each run, it holds the visible text above one marker with exactly the state the runs lead to, from any first body and reports that leave no opener above the marker. |
| Watchdog.DecisionsOnBody | scripts/ci/local-source-watchdog-state.js:154-200 | So each decision taken on the body is the decision taken on the state. |
| Watchdog.LeftOpenerForgets | scripts/ci/local-source-watchdog-state.js:125-200 | With a bare marker opener as the report, the state that is written is read back as empty, so the next run comments again, on the same digest and within the backoff. |
| Watchdog.ScriptCodecLawful | scripts/ci/local-source-watchdog-state.js:137-140 | What is asked of printing and parsing holds of the text that `JSON.stringify` writes, with a reader for it, over any clock that reads back the times it prints (`Stamps.CountingClockFaithful` has one). |
| Watchdog.StateNames | scripts/ci/local-source-watchdog-state.js:137-193 | Which field of the state stands under which name in the marker's JSON, in order. |
| RouteAlert.Repository.RouteAlertIssue | scripts/ci/route-alert-issue.js:52-139 | The calls on the store create one issue, or replace one body and add a comment exactly when the decision says so; nothing else changes. What is written and commented is stated in RouteText. |
| RouteText.CommentAdded | scripts/ci/route-alert-issue.js:52-139 | On any issues: a call that comments adds one comment, its own body and its signature, to the open issue of its title; a suppressed one adds none; every other issue stays. |
| RouteAlert.Repository.CloseAlertIssue | scripts/ci/route-alert-issue.js:142-170 | The first listed open issue of the title gets the comment and is closed, or nothing happens. |
| RouteAlert.UniqueStep | scripts/ci/route-alert-issue.js:65-89 | A call keeps one open issue per title if and only if it does not miss an open one of its title, which takes one that the first page does not list. |
| RouteAlert.UniqueAfter | scripts/ci/route-alert-issue.js:52-170 | Over any interleaving of calls, with at most 100 open issues before each of them, there is at most one open issue per title. |
| RouteAlert.HiddenIssueDuplicated | scripts/ci/route-alert-issue.js:65-89 | With 101 open issues the oldest is not listed and a second one is opened for its title. |
| RouteLife.LifeCounted | scripts/ci/route-alert-issue.js:98-106 | Within one issue's life `occurrences` is the number of calls and `first_seen_at` the creation time; a new signature does not restart them. |
| RouteLife.AlertsExactly | scripts/ci/route-alert-issue.js:92-97 | A later call alerts exactly when its signature is not the previous one or the last alert is at least a backoff old. |
| RouteLife.AlertsBounded | scripts/ci/route-alert-issue.js:91-106 | Alerts are at most 1 + signature changes + whole backoffs elapsed. |
| RouteLife.IssueFollowsCalls | scripts/ci/route-alert-issue.js:52-170 | Through any interleaving with calls for other titles, the issue stays the only open one of its title, and its body and comments are those of its own calls alone. |
| RouteLife.IssueLife | scripts/ci/route-alert-issue.js:52-139 | The state read from the issue's body counts its calls and has its creation time, and its comments are within the bound. |
| RouteText.IssueShows | scripts/ci/route-alert-issue.js:74-139 | Throughout its life an issue's body is: the last call's own text; from the second call on the line with the number of calls, the creation time and the latest time; the suppression line if and only if that call added no comment; and the marker with the state. Its comments are one for each later call that alerted, in order, with that call's body and signature. |
| RouteLife.LifeEnds | scripts/ci/route-alert-issue.js:142-170 | Closing keeps the body, touches no other issue and frees the title. |
| RouteLife.LeftOpenerForgets | scripts/ci/route-alert-issue.js:32-49 | With a bare marker opener as the alert's body, the state is read back as empty: the next call comments at once and counts from one again. |
| RouteLife.ScriptCodecLawful | scripts/ci/route-alert-issue.js:44-47 | What is asked of printing and parsing holds of the text that `JSON.stringify` writes here. |
| RouteText.StateNames | scripts/ci/route-alert-issue.js:44-106 | Which field of the state stands under which name in the marker's JSON, in order. |
| RouteSteps.AloneIsRoute | scripts/ci/route-alert-issue.js:65-139 | A call is its requests: the listing, the create or the update, and the comment, with none of another call in between. |
| RouteSteps.UniqueExactly | scripts/ci/route-alert-issue.js:65-136 | Over any interleaving of the requests of any calls, with at most 100 open issues at each listing: titles stay unique if and only if no call creates an issue while one of its title that was created after the call listed is open. |
| RouteSteps.RaceDuplicates | scripts/ci/route-alert-issue.js:65-89 | Two calls that list before either creates: both create. |
| RouteSteps.LostAlert | scripts/ci/route-alert-issue.js:100-136 | When the comment request fails after the update, the alert is recorded and no comment is there, and the next call of the same signature within the backoff adds none. |
| Canonical.Canonicalize | scripts/ci/local-source-watchdog-state.js:40-55 | The recursive loop over sorted keys computes the canonical form. |
| Canonical.CanonDecides | scripts/ci/local-source-watchdog-state.js:40-55 | Two values have one canonical form if and only if they agree as values of dictionaries after `captured_at` is deleted at every depth. |
| Canonical.CanonIdempotent | scripts/ci/local-source-watchdog-state.js:40-55 | The canonical form of a canonical form is itself. |
| Canonical.FieldsForgotten | scripts/ci/local-source-watchdog-state.js:40-55 | Permuting fields, changing what `captured_at` holds, and changing a field within its canonical form all leave the object's canonical form unchanged. |
| JsonPointer.ResolveJsonPointer | scripts/local-source-completion-audit.py:345-368 | The loop computes the resolution, with its errors: an invalid pointer, a step that is not found, and digits that `int` does not read. Which characters are digits is a table, with ASCII as usual. |
| JsonPointerExact.ResolvesExactly | scripts/local-source-completion-audit.py:345-368 | A pointer resolves to a value if and only if it is empty and that is the document, or it starts with a slash and a path to that value exists whose moves are its unescaped parts: a member by its name, an element by the number the part's digits read as. |
| JsonPointerExact.FailsExactly | scripts/local-source-completion-audit.py:352-368 | It fails as invalid if and only if it is not empty and starts with no slash; else as not found, or on digits that `int` does not read, if and only if a path named by its first parts exists and the next part leads nowhere from there in that way. |
| JsonPointerExact.UnescapeOnePass | scripts/local-source-completion-audit.py:358-358 | On every part, escaped by this library or not, the two replacements are one pass from left to right. |
| JsonPointer.UnescapeEscape | scripts/local-source-completion-audit.py:358-358 | The two replacements in this order undo the escaping of section 3 of RFC 6901 on every token. |
| JsonPointer.ResolveEncoded | scripts/local-source-completion-audit.py:345-368 | For every value and path, the pointer that encodes the path resolves as the path without its leading empty tokens (the last one is kept). |
| JsonPointer.RoundTrip | scripts/local-source-completion-audit.py:345-368 | Resolving the encoding of a valid path gives the value at the path, when the first token is not empty or is the only one. |
| JsonPointer.FaithfulExactly | scripts/local-source-completion-audit.py:357-357 | Those are all the paths for which it does so in every document; RFC 6901 promises it for every path. |
| JsonPointer.EmptyTokenLost | scripts/local-source-completion-audit.py:357-357 | A document and a path beginning with an empty token whose pointer is not found, because all leading slashes are stripped. |
| JsonPointer.SplitJoined | scripts/local-source-completion-audit.py:332-334 | Splitting a reference undoes joining path and pointer if and only if the path has no `#`. |
| JsonPointer.JoinSplitRef | scripts/local-source-completion-audit.py:332-334 | Joining the two parts gives back every reference, and the path part never has a `#`. |
| PoolCache.StepInv | apps/api/app/core/db.py:47-72 | Every step of every thread keeps the lock discipline and the agreement of dictionary and open pools. |
| PoolCache.MutualExclusion | apps/api/app/core/db.py:55-56 | Two threads are never inside the lock together. |
| PoolCache.OneOpenPool | apps/api/app/core/db.py:47-72 | In every reachable state, inside critical sections too, a URL has at most one open pool. |
| PoolCache.OpenExactlyCached | apps/api/app/core/db.py:47-72 | While the lock is free, the open pools are exactly the pools in the dictionary, under their own URLs. |
| PoolCache.HolderMoves | apps/api/app/core/db.py:52-72 | The thread inside always has a step to take, a failed constructor included. |
| PoolCache.SamePool | apps/api/app/core/db.py:47-64 | Two lookups of one URL return the same pool when no close-all clears the dictionary between the first beginning and the last return, in spite of the unlocked first read. |
| PoolReturns.ReturnsOpen | apps/api/app/core/db.py:47-72 | The pool a lookup returns is one of its URL, and is open if and only if no pool of the URL was closed by the close-all in progress at the step that got it, up to that step, nor by any close from it up to the return. |
| PoolReturns.LookupDecides | apps/api/app/core/db.py:47-62 | Every lookup that returns a pool has a step that got it: the unlocked read, the locked read, or the store. |
| PoolReturns.StaleReturn | apps/api/app/core/db.py:48-50 | A run of 13 steps in which the unlocked read returns a closed pool. |
| Evidence.EntryFailuresNone | scripts/signal_family_evidence.py:257-287 | An entry is reported without a failure exactly when it is valid by itself and its key is required. |
| Evidence.ValidateManifest | scripts/signal_family_evidence.py:215-254 | The loop with its seen and accepted keys computes the specified list of failures. |
| Evidence.FailuresExactly | scripts/signal_family_evidence.py:215-304 | No failure is reported if and only if the header is right, every entry is valid by itself, keys are pairwise distinct and their set is the required one. The shape is a parameter, so this covers both scripts. |
| EvidenceFailures.ReportedExactly | scripts/signal_family_evidence.py:215-287 | For each of the twelve kinds of failure, with its index and key: it is reported if and only if the manifest has that fault, said of the header, the entry's own fields, an earlier entry with the key, or the entries that settle a key. |
| Evidence.SortedKeysMember | scripts/signal_family_evidence.py:249-253 | The list of missing keys has exactly the missing keys. |
| Evidence.SortedKeysOrdered | scripts/signal_family_evidence.py:249-253 | They are reported in order of signal type or gate, then of county, each once. |
| EvidenceArtifact.SourceContractOk | scripts/source_contract_evidence.py:30-37 | The county-and-gate shape meets what the theorems ask of a shape: field names do not clash, and gates are plain words. |
| EvidenceArtifact.SignalFamilyOk | scripts/signal_family_evidence.py:30-32 | The county-and-signal shape meets it too. |
| EvidenceArtifact.BuildEvidenceArtifact | scripts/signal_family_evidence.py:113-140 | The artifact is passed if and only if the manifest passes; then it has as many entries as keys are required, and one completion target with that count. |
| EvidenceArtifact.NormalisedPasses | scripts/signal_family_evidence.py:307-332 | What a passed manifest hands on passes again: dropping blank strings and foreign fields loses nothing that is checked. |
| EvidenceArtifact.NormalisedExactly | scripts/signal_family_evidence.py:313-332 | An artifact entry has exactly the raw entry's values of the six allowed names, but for blank strings. |
| EvidenceArtifact.ArtifactEntries | scripts/signal_family_evidence.py:307-333 | There is one artifact entry for each object of the section, in order. |
| EvidenceArtifact.SignalManifest | scripts/signal_family_evidence.py:215-304 | The signal manifest by its field names: one entry settles its key exactly when every field is filled in and its status accepted. |
| EvidenceArtifact.ContractManifest | scripts/source_contract_evidence.py:219-306 | The contract manifest by its field names: one entry settles its key exactly when its gate is one of the three, and the rest is filled in. |
| EvidenceTemplate.FilledPassesExactly | scripts/signal_family_evidence.py:157-304 | The same for any manifest whose entries name the ordered keys, whatever else its entries hold. |
| EvidenceTemplate.TemplatePassesExactly | scripts/source_contract_evidence.py:162-187 | A template filled in entry by entry passes if and only if the capture time is not blank, the ordered keys are distinct, acceptable and already stripped, and every entry's own status is accepted and its own reference and date are not blank. |
| EvidenceTemplate.StatusAlonePasses | scripts/source_contract_evidence.py:162-187 | Of what has to be filled in, only the status is checked: the placeholder references and dates pass. |
| EvidenceTemplate.UnfilledFails | scripts/signal_family_evidence.py:157-181 | The template as written, with its pending status, is refused whenever anything is required. |
| Prometheus.EscapeIsOnePass | apps/workers/app/metrics.py:270-271 | The three replacements, one after the other, are one pass over the characters. |
| Prometheus.ReadEscaped | apps/workers/app/metrics.py:270-271 | Reading an escaped value gives the value back and stops at the closing quote, whatever follows. |
| Prometheus.SampleRoundTrip | apps/workers/app/metrics.py:260-267 | A reader of the text format gets back the name, the labels in order of their names, and the value of every rendered sample with legal names. |
| Prometheus.LabelsKept | apps/workers/app/metrics.py:264-266 | The labels read back are exactly the sample's own, each once and in order of their names. |
| Prometheus.RenderPrometheusText | apps/workers/app/metrics.py:217-234 | The loop with its set of emitted names computes the specified lines. |
| Prometheus.SamplesInOrder | apps/workers/app/metrics.py:226-232 | All samples are printed, in their order. |
| Prometheus.IntroducedOnce | apps/workers/app/metrics.py:226-232 | A described metric with a sample has one HELP and one TYPE, next to each other, directly before its first sample. |
| Prometheus.NotIntroduced | apps/workers/app/metrics.py:226-232 | A metric without a description or without a sample has neither. |
| Prometheus.DescriptionRoundTrip | apps/workers/app/metrics.py:226-232 | A reader of comment lines gets back the keyword, the metric's name and its help text or type. |
| Prometheus.GroupedExactly | apps/workers/app/metrics.py:226-232 | The lines of each metric form one group, as the format asks, if and only if the samples came grouped by name. |
| Prometheus.TextSplits | apps/workers/app/metrics.py:234-234 | The text splits back into the printed lines, whatever the label values hold. |
| GateBlockers.BlockersByCounting | scripts/github-actions-secret-readiness.py:386-421 | The loop over first-seen gates computes the counted blockers, and each has one detail for every route of its gate, in their order: that route's key, the names it lacks in their order, its own requirements and its own next action. |
| GateBlockers.GroupByGate | scripts/hosted_private_evidence_readiness.py:271-273 | The dictionary holds, for every gate and no other, its routes in order. |
| GateBlockers.BlockersByGrouping | scripts/hosted_private_evidence_readiness.py:268-300 | The loop over sorted gates computes the grouped blockers. |
| GateBlockers.BlockersAgree | scripts/hosted_private_evidence_readiness.py:253-300 | On every route list and every set of configured secrets the second program's blockers are the first program's, sorted by gate: the same gates, missing secrets and routes. |
| GateBlockers.BlockedExactly | scripts/github-actions-secret-readiness.py:386-428 | A blocker is reported if and only if its gate has a route, no route of the gate has all its secrets, and it lists what the gate's routes need. |
| GateBlockers.BlockerLists | scripts/github-actions-secret-readiness.py:393-420 | A blocker's missing secrets, sorted and each once, are those that some route of its gate lacks; its routes are the gate's, in their order. |
| GateBlockers.ConfiguringUnblocks | scripts/github-actions-secret-readiness.py:386-428 | Configuring more secrets blocks no further gate and adds no missing secret. |

## Left out

- Migrations.MigrationFiles: the directory is a list of names and contents. SHA-256 is an injective constructor.
- MigrationProtocol.Safety: a transaction is atomic, the session lock is released on disconnect, and migration SQL does not commit by itself; a lock or statement that times out is a crash at that step. Session timeouts and their validation (lines 154-167 and 263-277) are not modelled.
- MigrationProtocol.FinishedExact: a runner's checkout is read in one step when it starts.
- MigrationRun.ApplyMigrations: one runner alone; the `broken` parameter names the versions whose SQL raises.
- CatalogCheck.CheckAfterRender: reads entries line by line, where the script reads YAML; a file on which the renderer's and a YAML reader's entries differ is outside it.
- CatalogRun.LoadRuntimeStates: of an unmapped decision the error names the decision, not the adapter keys that have it.
- FollowupsProof.SanitisedReport: when due dates cannot be parsed both reports fail, but they may name different sections. Date parsing is a parameter; comparing a date with and one without a time zone counts as unparsable.
- Follow-up overlays: JSON dictionaries have no order, so the order of the overlay's keys is not modelled; `str()` of values that are not strings is a parameter.
- Sampler.SelectEventSamples: the location key is the text that is hashed (SHA-256 is injective); which focus a county has, and coordinates, are data.
- MarkerRoundTrip.RoundTripAll: payloads are single-line JSON objects, as `JSON.stringify` prints them.
- Watchdog.BodyCarriesState: a time field that is not a string counts as missing, where the script copies it through; occurrences are integers. Nobody edits the body between runs, and what stands above the marker holds no opener.
- The watchdog's digest: reading the bundle directory and hashing it are not modelled; the digest is a parameter.
- RouteAlert.Repository.RouteAlertIssue: one call is one step here; RouteSteps has its requests one by one, with a close still in one step.
- RouteLife.IssueFollowsCalls: bodies hold no marker opener, and pull requests in the listing count as issues.
- Canonical.CanonDecides: JavaScript's own order of integer-like keys, its `__proto__` key, and UTF-16 order of characters beyond the basic plane are not modelled.
- JsonPointer.ResolveJsonPointer: numbers of more digits than `int` converts by default raise in Python and are not found here.
- PoolCache.OneOpenPool: closing a pool does not raise; the dictionary operations are atomic, as CPython makes them.
- Evidence.ValidateManifest: failures are values, not their texts; a status or gate that cannot be hashed counts as not accepted, where Python raises. Accepted statuses and required keys come from modules that are not part of this model, as parameters.
- EvidenceTemplate.TemplatePassesExactly: the template's notes are not modelled.
- EvidenceArtifact.BuildEvidenceArtifact: keys of dictionaries have no order; the fixed schema fields are not modelled.
- Prometheus.SampleRoundTrip: the value is the text Python prints for the number; label values are arbitrary, metric and label names are legal.
- Prometheus.IntroducedOnce: HELP texts are printed as they are; the format's escapes in them are not modelled.
- Metrics: the functions that compute samples from worker and queue state are not modelled.
- GateBlockers.BlockersAgree: the first program reads which secrets exist, the second which are not blank; both are one set here.
- Network clients, retries, argument parsing, Markdown rendering, the web application, SQL and PostGIS: input and output, or logic that lives in SQL.
- The validators that only ask for fields to be present, and environment parsing: one branch each.
