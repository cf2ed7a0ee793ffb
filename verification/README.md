# Project dashboard: a Dafny model of its client-side logic

This project models the logic of a Turkish project and task dashboard written
in TypeScript with Next.js and React. Projects and tasks live in a hosted
Postgres database; a realtime change feed keeps each client's lists current.
A second, live task table sits in a document database, and a presence channel
shows who is online and which row each user is editing. The model is pure:
immutable datatypes, functions over sequences, and lemmas about them. Every
database call, timer, clock and browser facility becomes an input or an
event.

The modules follow the source files:

| module | models |
|---|---|
| `TaskFeed` | hooks/useTasksWithRealtime.ts: row normalisation, the change-feed reducer, optimistic patches, write payloads, chunked bulk writes, the "live" flag |
| `ProjectFeed` | hooks/useProjects.ts: the same for projects, plus e-mail lists, priority normalisation and the local store |
| `Presence` | hooks/usePresence.ts: the presence state, the row claims, the online list |
| `Permissions` | types/permissions.ts and lib/permissions.ts: permissions, roles, groups, labels, effective permissions |
| `CsvParser`, `JsonParser` | lib/csvParser.ts, lib/jsonParser.ts |
| `Dates` | lib/formatDate.ts, lib/relativeTime.ts |
| `Settings` | contexts/settings-context.tsx: defaults, loading, saving, resets |
| `TasksTable`, `ColumnLayout` | components/TasksTable.tsx: CSV export and import, column order, filters, auto-size, pager; the drag and pin logic it shares with components/GorevlerTablosu.tsx |
| `Visibility`, `ProjectsSection` | components/ProjectsSection.tsx: who may see a project, the filter chain, due labels, the e-mail editor, the task import |
| `TaskSummary` | components/GorevOzeti.tsx |
| `Dashboard` | components/DashboardSection.tsx |
| `OnlineUsers` | components/OnlineUsersPanel.tsx |
| `LiveTasks`, `LiveTable` | hooks/useGorevlerFirestore.ts, components/GorevlerTablosu.tsx |
| `Notifications` | hooks/useNotificationSummary.ts |
| `TaskCounts` | hooks/useTaskCountByProject.ts |
| `Navigation` | components/layout/Header.tsx, components/layout/Sidebar.tsx |
| `SettingsPage` | app/ayarlar/page.tsx |
| `AuthGuard` | components/AuthGuard.tsx |
| `Common`, `Text`, `JsValue` | shared helpers: sequence filters and counts, ordered key-value lists for JavaScript objects, JavaScript string operations, and JavaScript values with `String(v)` |

JavaScript objects are ordered lists of key-value pairs. A lookup finds the
last binding, as repeated assignment does. Strings are sequences of
characters. Case mapping covers ASCII and the Turkish letters that map one to
one.

## Model

| member | source | states |
|---|---|---|
| TaskFeed.MapRow | hooks/useTasksWithRealtime.ts:14-38 | a missing or null content or status reads as ""; each nullable field is null exactly when the row's field is missing or null; every present field reads as `String(v)` of the row's value, and a missing id as "undefined"; `extra_data` is kept only when the row holds an object |
| TaskFeed.StoredRowLookups | hooks/useTasksWithRealtime.ts:14-38 | each column of the row written out for a task holds that task's field |
| TaskFeed.MapRowReadsStored | hooks/useTasksWithRealtime.ts:14-38 | a task written out as a stored row (strings, nulls, an object of strings) reads back as the same task, its extra data binding by binding |
| TaskFeed.ExtraFromEntries | hooks/useTasksWithRealtime.ts:19-25 | an `extra_data` entry that is null is dropped; any other entry is kept as its string form |
| TaskFeed.MapRowExtra | hooks/useTasksWithRealtime.ts:19-25 | the normalised `extra_data` holds exactly the non-null entries of the row's object, each stringified |
| TaskFeed.RowId | hooks/useTasksWithRealtime.ts:93-94 | a present id of a record is the id its normalised task carries |
| TaskFeed.ReplaceById | hooks/useTasksWithRealtime.ts:106-108 | the list keeps its length; exactly the tasks with the id are replaced |
| TaskFeed.RemoveId | hooks/useTasksWithRealtime.ts:112 | no task with the id remains; every other task stays, in order |
| TaskFeed.Apply | hooks/useTasksWithRealtime.ts:96-117 | an INSERT of a known id changes nothing, otherwise appends the normalised row; an UPDATE with a truthy id replaces exactly the matching tasks; a DELETE with a truthy id removes them; events without an id change nothing |
| TaskFeed.UpdateUnknownIsNoOp | hooks/useTasksWithRealtime.ts:104-110 | an UPDATE for an id nobody holds does not insert |
| TaskFeed.DeleteAbsentIsNoOp | hooks/useTasksWithRealtime.ts:111-113 | a DELETE for an id already removed locally changes nothing |
| TaskFeed.ApplyKeepsIdsUnique | hooks/useTasksWithRealtime.ts:98-113 | events that carry an id keep the ids of the list distinct |
| TaskFeed.ApplyTwice | hooks/useTasksWithRealtime.ts:96-117 | delivering an event twice has the effect of delivering it once |
| TaskFeed.InsertWithoutIdAppends | hooks/useTasksWithRealtime.ts:99-101 | an INSERT whose record has no id appends a task every time it arrives |
| TaskFeed.Merge | hooks/useTasksWithRealtime.ts:172 | each of the ten fields, the id included, takes the patch's value when the patch has the key and keeps the task's otherwise |
| TaskFeed.MergeEmpty | hooks/useTasksWithRealtime.ts:172 | the empty patch changes nothing |
| TaskFeed.MergeIdempotent | hooks/useTasksWithRealtime.ts:172 | applying a patch twice is applying it once |
| TaskFeed.UpdateOptimistic | hooks/useTasksWithRealtime.ts:170-174 | the tasks with the id take the patch; all other tasks are unchanged; the length is kept |
| TaskFeed.UpdateDiscardsOptimistic | hooks/useTasksWithRealtime.ts:104-110 | the realtime UPDATE after a save replaces the optimistic task, so the patch leaves no trace |
| TaskFeed.SavePayloadOf | hooks/useTasksWithRealtime.ts:178-185 | the update carries the patch's fields without priority, and `last_updated_by` defaults to "anon" |
| TaskFeed.SaveIgnoresPriority | hooks/useTasksWithRealtime.ts:178 | two patches that differ only in priority send the same update |
| TaskFeed.OptionalFields | hooks/useTasksWithRealtime.ts:207-210 | the project id is sent when given; the due date and priority only when not blank, and then as given; `extra_data` only when it has a key, and then as given |
| TaskFeed.CreateRow | hooks/useTasksWithRealtime.ts:201-210 | the content is sent as given; an empty status becomes "Yapılacak"; an empty or missing assignee becomes null, any other is sent as given; the writer is "anon"; the project id, due date, priority and extra data are those the optional fields give |
| TaskFeed.BulkRow | hooks/useTasksWithRealtime.ts:225-236 | the content is the task's content trimmed; the status is the trimmed status, or "Yapılacak" when blank; the assignee is the trimmed assignee, or null when blank or missing; the writer is "anon"; the optional fields are shared with the single insert |
| TaskFeed.BulkRowAgreesWithCreateRow | hooks/useTasksWithRealtime.ts:201-210 | on trimmed input the bulk row and the single-insert row are the same |
| TaskFeed.Chunks | hooks/useTasksWithRealtime.ts:238-244 | the loop issues ceil(n/100) calls, call k being exactly the slice of the rows from 100·k to 100·k+100 or the end; each holds 1 to 100 rows and together they are the rows in order |
| TaskFeed.ChunksOfUnique | hooks/useTasksWithRealtime.ts:238-239 | the calls are determined by the rows: no other split fits the loop |
| TaskFeed.CommittedBeforeCount | hooks/useTasksWithRealtime.ts:238-243 | for the loop's calls, a failure at call k leaves exactly the first 100·k rows committed, and all rows once every call succeeded |
| TaskFeed.RemoveIds | hooks/useTasksWithRealtime.ts:268 | after a bulk delete exactly the tasks whose id was not deleted remain, in order |
| TaskFeed.AfterFetch | hooks/useTasksWithRealtime.ts:50-68 | loading ends; a success lists the normalised rows in order and clears the error; a failure empties the list and keeps the message |
| TaskFeed.AfterSave | hooks/useTasksWithRealtime.ts:186-194 | a successful save changes nothing locally |
| TaskFeed.FailedSaveIsRefetch | hooks/useTasksWithRealtime.ts:191-194 | after a failed save the list is the refetched one, whatever it was before |
| TaskFeed.Step | hooks/useTasksWithRealtime.ts:124-159 | SUBSCRIBED (any case) connects and disarms the fallback; a failure status or error disconnects; the fallback connects only while armed and not cancelled; cleanup disconnects for good |
| TaskFeed.NothingAfterCleanup | hooks/useTasksWithRealtime.ts:124-159 | once cleaned up the flag stays false, whatever callbacks still arrive |
| TaskFeed.FallbackAfterError | hooks/useTasksWithRealtime.ts:141-152 | a channel error before the timer fires is overridden: the flag ends up true |
| TaskFeed.SubscribedDisarmsFallback | hooks/useTasksWithRealtime.ts:135-140 | after SUBSCRIBED the fallback no longer fires |
| ProjectFeed.NormEmails | hooks/useProjects.ts:155 | every address kept is non-empty, trimmed and lower case; none is added |
| ProjectFeed.NormEmailsMembers | hooks/useProjects.ts:18-21 | an address is listed exactly when some input trims and lower-cases to it and is not empty |
| ProjectFeed.NormEmailsOfNormal | hooks/useProjects.ts:18-21 | a list already normalised comes back unchanged |
| ProjectFeed.NormEmailsIdempotent | hooks/useProjects.ts:18-21 | normalising twice is normalising once |
| ProjectFeed.StringsOf | hooks/useProjects.ts:19 | exactly the string entries of the array are kept |
| ProjectFeed.AssignedOf | hooks/useProjects.ts:15-35 | a result is a non-empty list of normal addresses, coming only from an array or a string; an array gives its normalised string entries, an empty result becoming null |
| ProjectFeed.AssignedRoundTrip | hooks/useProjects.ts:15-35 | a stored array of normal addresses reads back as the same list |
| ProjectFeed.Priority | hooks/useProjects.ts:37-39 | a priority is read exactly when the value is present and spells high, medium or low in any case, and it is then one of High, Medium, Low |
| ProjectFeed.PriorityRoundTrip | hooks/useProjects.ts:37-39 | each priority, as written, in lower case or in upper case, reads back as itself |
| ProjectFeed.PrioritySpelling | hooks/useProjects.ts:37-39 | any spelling equal to a priority up to case reads back as that priority |
| ProjectFeed.CapitalizeExact | hooks/useProjects.ts:38 | re-casing an accepted spelling gives the matching priority |
| ProjectFeed.PriorityAsWritten | hooks/useProjects.ts:37-39 | a priority is read exactly when the value passes the unanchored test (starts with "high", holds "medium" or ends with "low", in any case) |
| ProjectFeed.AsWrittenAgreesOnExact | hooks/useProjects.ts:37-39 | wherever the intended test accepts, the test as written gives the same priority |
| ProjectFeed.PriorityAsWrittenAdmitsSlow | hooks/useProjects.ts:37 | "slow" passes the test as written and is stored as "Slow", which is not a priority |
| ProjectFeed.PriorityAsWrittenAdmitsPrefix | hooks/useProjects.ts:37 | "highway" passes the test as written and is stored as "Highway" |
| ProjectFeed.PriorityAsWrittenAdmitsInfix | hooks/useProjects.ts:37 | "intermediumx" passes the test as written |
| ProjectFeed.MapRow | hooks/useProjects.ts:14-51 | a missing name or description reads as ""; a missing status as "Aktif", a string status as itself; each timestamp and the due date are null exactly when missing; every present id, name, description, status, timestamp and due date reads as `String(v)` of the row's value; the address list is the one the address parser gives for the row's value, never empty; the priority is the one the priority parse gives for the row's value, always one of the three |
| ProjectFeed.MapRowReadsStored | hooks/useProjects.ts:14-51 | a project with a non-empty list of normal addresses and one of the three priorities, written out as a stored row, reads back as the same project |
| ProjectFeed.MapRowAsWritten | hooks/useProjects.ts:14-51 | the row as the code reads it differs from the intended reading only in the priority |
| ProjectFeed.RemoveId | hooks/useProjects.ts:107 | no project with the id remains; all others do |
| ProjectFeed.Apply | hooks/useProjects.ts:89-112 | an INSERT with a new truthy id puts the project first, otherwise nothing changes; an UPDATE with a truthy id replaces exactly the matching projects, keeping the length; a DELETE with a truthy id removes them; events without an id change nothing |
| ProjectFeed.MapRowId | hooks/useProjects.ts:41 | the normalised project carries the record's id |
| ProjectFeed.ApplyKeepsIdsUnique | hooks/useProjects.ts:94-111 | every event keeps the project ids distinct |
| ProjectFeed.ApplyTwice | hooks/useProjects.ts:94-111 | delivering an event twice has the effect of delivering it once |
| ProjectFeed.AfterFetch | hooks/useProjects.ts:58-74 | loading ends; a success lists the normalised rows in order with no error; a failure empties the list and keeps the message |
| ProjectFeed.BaseRow | hooks/useProjects.ts:147-162 | the name is the trimmed name, or "İsimsiz proje" when blank; the description is trimmed; the addresses are sent exactly when there are any, normalised (trimmed, lower case, empty ones dropped); a due date is sent trimmed and a priority as given, each exactly when given and not blank |
| ProjectFeed.CreateProject | hooks/useProjects.ts:163-188 | the base row is sent first; a second row is sent exactly when addresses were given and the first error names the addresses column or code 42703; that row drops only the addresses; the outcome is that of the last call: its id, null for a missing or empty id, or its error message |
| ProjectFeed.CreatedId | hooks/useProjects.ts:188 | the id returned is present exactly when the insert gave a non-empty one, and is then that id |
| ProjectFeed.RetryDropsOnlyAssigned | hooks/useProjects.ts:169-176 | the retried row equals the first with the addresses left out |
| ProjectFeed.StoreUpdate | hooks/useProjects.ts:195-203 | name, description, status, due date and priority are written as given; an empty or null address list is written as [], a non-empty one normalised |
| ProjectFeed.LocalPatch | hooks/useProjects.ts:207-213 | name, description, status, due date and priority are kept as given; an empty or null address list becomes null, a non-empty one is normalised |
| ProjectFeed.ClearedListDiffers | hooks/useProjects.ts:197-212 | a cleared address list is [] in the store and null in the local list |
| ProjectFeed.StoreAndLocalAgree | hooks/useProjects.ts:195-213 | every other patch is the same in the store and in the local list |
| ProjectFeed.Merge | hooks/useProjects.ts:215 | the id and timestamps are kept; name, description, status, address list, due date and priority each take the patch's value when present and keep the project's otherwise; the empty patch changes nothing |
| ProjectFeed.UpdateLocal | hooks/useProjects.ts:214-216 | only the projects with the id change, each merged with the local patch; the length is kept |
| ProjectFeed.ArchiveSetsStatusOnly | hooks/useProjects.ts:231-237 | archiving sets the status to "Beklemede" and nothing else |
| ProjectFeed.DeleteProject | hooks/useProjects.ts:222-229 | the task delete comes first; the project delete is issued only if it succeeded; the project leaves the local list only when both succeeded |
| Presence.RowsSpec | hooks/usePresence.ts:110-117 | a row is in the set exactly when some stored claim names it |
| Presence.ByUserSpec | hooks/usePresence.ts:111-117 | a row has an editor exactly when it is in the set, and the editor is the user of a claim naming that row |
| Presence.Receive | hooks/usePresence.ts:105-120 | one's own broadcast changes nothing; another client's replaces exactly that client's claim, and both views are rebuilt from the claims; the online list is untouched |
| Presence.ViewsAgree | hooks/usePresence.ts:110-119 | the set of edited rows and the row-to-editor map name the same rows; with one entry per client, a row is edited exactly when some client's current claim names it |
| Presence.RowsByClient | hooks/usePresence.ts:109-117 | with one entry per client, a row is in the set exactly when some client's current claim names it |
| Presence.ReceiveKeepsKeysDistinct | hooks/usePresence.ts:109 | storing a claim keeps one entry per client |
| Presence.ReleaseClaim | hooks/usePresence.ts:106-118 | a broadcast with no row releases that client's claim: a row stays edited exactly when another client still claims it |
| Presence.SetEditingRow | hooks/usePresence.ts:58-75 | nothing is sent before the channel is subscribed; a sent payload carries this client's id and the row |
| Presence.OwnBroadcastIgnored | hooks/usePresence.ts:58-75 | a client receiving its own broadcast changes nothing |
| Presence.OnlineOf | hooks/usePresence.ts:77-87 | at most one user per entry |
| Presence.OnlineOfSpec | hooks/usePresence.ts:80-87 | a user is listed exactly when some entry with a non-empty key and a first meta gives it |
| Presence.Resync | hooks/usePresence.ts:88 | an empty list keeps the previous one; otherwise it replaces it; a non-empty list never becomes empty |
| Presence.Subscribed | hooks/usePresence.ts:125-143 | the channel is subscribed; this client is listed, first if it was not already, the list untouched if it was; the claims are unchanged |
| Presence.SubscribedTwice | hooks/usePresence.ts:135-143 | subscribing again changes nothing |
| Permissions.FromOrd | types/permissions.ts:7-44 | every position in the declaration names the permission declared there |
| Permissions.OrdRoundTrip | types/permissions.ts:7-44 | a permission's position gives the permission back, so the thirty are distinct |
| Permissions.DeclaredSpec | types/permissions.ts:7-44 | the declared list holds the permissions at their positions |
| Permissions.AllPermissionsComplete | types/permissions.ts:7-44 | every permission is declared, and only once |
| Permissions.RoleByKey | types/permissions.ts:47-57 | exactly the four role keys name a role, and a role's key gives it back |
| Permissions.RoleGrants | types/permissions.ts:57-166 | each role lists exactly the permissions it grants, each once |
| Permissions.RoleIdsMatch | types/permissions.ts:57-166 | each role's id is its key in the table |
| Permissions.AdminHasEverything | types/permissions.ts:58-94 | the admin role lists every permission |
| Permissions.ViewerOnlyViews | types/permissions.ts:151-165 | the viewer role grants no create, edit, delete, import or export permission |
| Permissions.MemberCannotDeleteImportExport | types/permissions.ts:129-150 | the member role grants no delete, import or export permission |
| Permissions.AdminOnly | types/permissions.ts:57-166 | only the admin may delete projects or edit user permissions |
| Permissions.RolesNested | types/permissions.ts:57-166 | each role's permissions include those of the role below it |
| Permissions.GroupsPartition | types/permissions.ts:169-222 | the permission groups, in order, list every permission exactly once, in declaration order |
| Permissions.GroupIsSlice | types/permissions.ts:169-222 | each group is a contiguous run of the declaration |
| Permissions.Label | types/permissions.ts:225-256 | every permission has a non-empty label |
| Permissions.LabelsNotUnique | types/permissions.ts:225-256 | two different permissions share a label, so labels do not identify permissions |
| Permissions.Effective | lib/permissions.ts:9-18 | no user, no permissions; otherwise each permission at most once, and exactly those of the role or the added list that are not removed |
| Permissions.RemoveWins | lib/permissions.ts:13-16 | a removed permission is never effective, even when the role or the added list holds it |
| Permissions.AnyAllEdges | lib/permissions.ts:25-31 | the empty list is held by all and by none; no user holds any; holding all of a non-empty list holds some |
| Permissions.AdminPermissions | lib/permissions.ts:33-35 | an admin without removals has every permission, but a removal takes one away while the admin test still holds |
| Permissions.PromotionKeepsPermissions | lib/permissions.ts:9-23 | moving a user one role up never loses a permission |
| CsvParser.Normalize | lib/csvParser.ts:13 | no carriage return survives; text without carriage returns or a leading byte-order mark is unchanged |
| CsvParser.NormalizeNewlinesNoCr | lib/csvParser.ts:13 | text without carriage returns is unchanged by the newline replacement |
| CsvParser.RecordsAsWritten | lib/csvParser.ts:14-33 | the split as written drops every quote character from the records |
| CsvParser.Records | lib/csvParser.ts:14-33 | with the quotes kept, the records joined by newlines spell the input back, up to a final newline |
| CsvParser.ScanSpells | lib/csvParser.ts:18-33 | the record scan loses no character but the separating newlines |
| CsvParser.DetectDelimiter | lib/csvParser.ts:6-10 | the delimiter is a comma exactly when the line holds more commas than semicolons, and a semicolon otherwise |
| CsvParser.ParseRow | lib/csvParser.ts:39-58 | a row always has a cell, and every cell is trimmed |
| CsvParser.ParseRowQuoted | lib/csvParser.ts:39-58 | a row of quoted, trimmed, quote-free fields parses back to the fields, delimiters inside quotes included |
| CsvParser.ParseRowPlain | lib/csvParser.ts:39-58 | a row of trimmed fields without quotes or delimiters, joined by the delimiter, parses back to the fields |
| CsvParser.FromRecords | lib/csvParser.ts:35-62 | no records give no headers and no rows; otherwise the first record gives a non-empty header and each further record one row |
| CsvParser.Parse | lib/csvParser.ts:12-63 | the headers are empty exactly when the normalised text has no records |
| CsvParser.ParseQuotedFile | lib/csvParser.ts:12-63 | a file written as quoted records, with a header free of delimiters, parses back to its header and rows |
| CsvParser.ParseAsWritten | lib/csvParser.ts:12-63 | the parser as written: the headers are empty exactly when the quote-dropping split yields no records |
| CsvParser.RecordsAsWrittenExample | lib/csvParser.ts:20-23 | the record `"a,b","c"` loses its quotes in the first pass, becoming `a,b,c` |
| CsvParser.QuotedDelimiterSplitAsWritten | lib/csvParser.ts:20-23 | the header `"a,b","c"` gives three columns as written and the intended two, `a,b` and `c` |
| JsonParser.Cell | lib/jsonParser.ts:13-17 | a missing key, a `null` value or an element that is not an object gives ""; any other value gives its `String(v)` trimmed |
| JsonParser.RowOf | lib/jsonParser.ts:12-20 | a row has one cell per header, in header order |
| JsonParser.FromValue | lib/jsonParser.ts:8-21 | anything but a non-empty array starting with an object gives no headers and no rows; otherwise the headers are the first object's keys, each once, and each element gives a row holding, under each header in order, that element's cell for the header |
| JsonParser.Parse | lib/jsonParser.ts:6-22 | text the JSON parser rejects is an error; otherwise the table is read from the parsed value |
| JsonParser.RowRoundTrip | lib/jsonParser.ts:12-20 | an object built from distinct headers and trimmed cells reads back as those cells |
| JsonParser.JsonRoundTrip | lib/jsonParser.ts:6-22 | an array of such objects reads back as the headers and the rows it was built from |
| Dates.Pad | lib/formatDate.ts:3-5 | a number below 100 gives exactly two digits; from 10 on it is the plain decimal |
| Dates.PadValue | lib/formatDate.ts:3-5 | the padded digits read back as the number |
| Dates.UnknownFormatIsDayFirst | lib/formatDate.ts:15-24 | any format but the two others is written day first with dots |
| Dates.FormatDateLength | lib/formatDate.ts:10-25 | every layout has the year's digits plus six characters |
| Dates.FormatDateRoundTrip | lib/formatDate.ts:10-25 | each layout reads back as the day, the one-based month and the year it was written from |
| Dates.Classify | lib/relativeTime.ts:5-15 | under a minute is "just now"; up to an hour counts whole minutes (1 to 59); up to a day whole hours (1 to 23); the second day is "yesterday"; up to a week whole days (2 to 6); later is the locale date |
| Dates.ClassifyMonotone | lib/relativeTime.ts:5-16 | an older instant never lands in a finer bucket, and within a bucket its count is never smaller |
| Dates.RelativeTime | lib/relativeTime.ts:4-17 | under a minute reads "Az önce", the second day "Dün", a week or more the locale date |
| Dates.FutureIsJustNow | lib/relativeTime.ts:11 | an instant in the future reads "Az önce" |
| Settings.Default | contexts/settings-context.tsx:26-37 | each key's default is the value of the defaults table |
| Settings.DefaultsComplete | contexts/settings-context.tsx:26-37 | the defaults give every key a value |
| Settings.SectionsPartition | contexts/settings-context.tsx:75-80 | every key is reset with exactly one section |
| Settings.Load | contexts/settings-context.tsx:39-49 | the result gives every key a value; a missing, unreadable or non-object store gives the defaults; a stored object overrides exactly the keys it holds |
| Settings.LoadNonObject | contexts/settings-context.tsx:44-45 | stored JSON that is not an object gives the defaults |
| Settings.LoadRoundTrip | contexts/settings-context.tsx:39-58 | settings saved as JSON load back unchanged |
| Settings.Serialize | contexts/settings-context.tsx:51-58 | the saved object holds one entry per key, in declaration order, with the key's value |
| Settings.NameRoundTrip | contexts/settings-context.tsx:13-24 | a key's property name gives the key back |
| Settings.KeyNameInjective | contexts/settings-context.tsx:13-24 | distinct keys have distinct property names |
| Settings.Mount | contexts/settings-context.tsx:90-95 | after mounting, the settings and the saved copy are both what was loaded |
| Settings.UpdateSetting | contexts/settings-context.tsx:112-115 | exactly the one key changes, to the value given; the saved copy is untouched |
| Settings.ResetToDefaults | contexts/settings-context.tsx:117-123 | the settings and the saved copy are both the defaults |
| Settings.ResetKeys | contexts/settings-context.tsx:128-130 | the listed keys take their defaults; every other key keeps its value |
| Settings.ResetSectionEffect | contexts/settings-context.tsx:125-138 | the section's keys take their defaults in both the settings and the saved copy; the other keys keep their values in both |
| Settings.AllSectionsAreDefaults | contexts/settings-context.tsx:117-138 | resetting all four sections gives the same settings as resetting to defaults |
| Settings.Save | contexts/settings-context.tsx:144-152 | the saved copy catches up, nothing is dirty, no save is scheduled, the settings are unchanged |
| Settings.SaveFires | contexts/settings-context.tsx:100-106 | when the delayed save fires, pending edits are no longer dirty |
| Settings.PendingInvariant | contexts/settings-context.tsx:90-152 | every operation keeps each unsaved edit scheduled for saving |
| Settings.UpdateSchedulesSave | contexts/settings-context.tsx:97-115 | an update after mounting schedules a save, and the provider is dirty exactly when the new settings differ from the saved copy |
| Settings.UpdateToSavedIsClean | contexts/settings-context.tsx:112-142 | setting a key back to its saved value leaves a clean provider clean |
| Settings.ResetToDefaultsIsClean | contexts/settings-context.tsx:117-142 | after a reset to defaults nothing is dirty |
| TasksTable.Escape | components/TasksTable.tsx:155-157 | doubling the quotes lengthens a value by its number of quote characters |
| TasksTable.ExportField | components/TasksTable.tsx:155-157 | every exported field is wrapped in quotes |
| TasksTable.ExportCsv | components/TasksTable.tsx:153-160 | the file starts with the byte-order mark |
| TasksTable.FieldBodyEscape | components/TasksTable.tsx:155-157 | a standard CSV reader reads an escaped value back up to its closing quote |
| TasksTable.ExportRoundTrip | components/TasksTable.tsx:153-160 | a standard CSV reader reads the exported file back as the header line and the rows, whatever quotes, commas or newlines the values hold |
| TasksTable.Cell | components/TasksTable.tsx:451 | a cell is trimmed, and a missing cell is "" |
| TasksTable.HeaderKeys | components/TasksTable.tsx:453-456 | each column's key is its trimmed header or "Sütun n", never empty |
| TasksTable.ExtraOf | components/TasksTable.tsx:452-456 | the extra data holds each key once |
| TasksTable.Mapped | components/TasksTable.tsx:459-461 | a mapped field is read exactly when the column is mapped and its cell is not blank |
| TasksTable.ExtraKeys | components/TasksTable.tsx:453-456 | the extra data has exactly the columns' keys |
| TasksTable.ExtraValue | components/TasksTable.tsx:453-456 | a key holds the cell of the last column with that key |
| TasksTable.AssignIsLast | components/TasksTable.tsx:453-456 | assigning keys in turn leaves each key with its last value |
| TasksTable.BuildRowFields | components/TasksTable.tsx:449-470 | a row is skipped exactly when no value of its extra data is non-blank, that is, when every cell under a header is blank once a later duplicate header has overwritten an earlier one (cells beyond the headers do not count); otherwise the content is empty, the status is the mapped cell or "Yapılacak", the assignee and priority are the mapped cells or null, and the extra data is the row's |
| TasksTable.BuildTasksKeepsDataRows | components/TasksTable.tsx:448-471 | one task per row with some data |
| TasksTable.BuildTasksShape | components/TasksTable.tsx:448-471 | every imported task has empty content, a status and extra data |
| TasksTable.ReconcileOrder | components/TasksTable.tsx:901-912 | without extra keys the order is the fixed base; otherwise the three leading columns, the extra columns already placed in their order, and "actions" last |
| TasksTable.ReconciledExtra | components/TasksTable.tsx:907-911 | the extra columns are the ones already placed followed by the new ones |
| TasksTable.AddedIds | components/TasksTable.tsx:909 | the new columns are exactly the keys' ids not already in the order, in the keys' order; every key gets a column, already placed or new |
| TasksTable.ReconcileStable | components/TasksTable.tsx:901-912 | reconciling again with the same keys changes nothing |
| TasksTable.ToggleFilterValue | components/TasksTable.tsx:1045-1054 | only that column changes; the value becomes checked exactly when it was not; every other value keeps its state |
| TasksTable.ToggleTwice | components/TasksTable.tsx:1045-1054 | toggling twice checks the same values as before, and restores the list exactly when the value was unchecked |
| TasksTable.ClearFilter | components/TasksTable.tsx:1057-1063 | the column loses its filter; every other column keeps its own |
| TasksTable.BoundsOf | components/TasksTable.tsx:80-87 | every bound has its minimum at most its maximum; every extra column has bounds |
| TasksTable.LongestText | components/TasksTable.tsx:1250-1254 | the longest text is at least the header and every cell, and is one of them |
| TasksTable.Width | components/TasksTable.tsx:1255 | the width lies within the bounds, and is the text width when that fits |
| TasksTable.WidthMonotone | components/TasksTable.tsx:1255 | longer text never gives a narrower column |
| TasksTable.AutoSizes | components/TasksTable.tsx:1246-1257 | exactly the columns with bounds get a width: that of the longest of label and cells, clamped to the bounds |
| TasksTable.AutoSize | components/TasksTable.tsx:1242-1259 | every base and extra column gets the width of its longest text clamped to its bounds; other columns keep their widths |
| TasksTable.AutoSizeMonotone | components/TasksTable.tsx:1250-1255 | when a column's cells only grow, its auto-sized width does not shrink |
| TasksTable.PageButtons | components/TasksTable.tsx:2620-2627 | at most five buttons, consecutive pages within range, one of them the current page |
| TasksTable.CurrentIsCentred | components/TasksTable.tsx:2624-2627 | away from both ends the current page is the middle button |
| ColumnLayout.Drop | components/GorevlerTablosu.tsx:146-159 | without a drag, or on the dragged column itself, nothing changes; otherwise the drag ends, and the order changes only when both columns are in it |
| ColumnLayout.DropMoves | components/GorevlerTablosu.tsx:149-157 | the dragged column lands at the target's index; the order keeps the same columns, and apart from the moved column nothing changes place |
| ColumnLayout.DropUnknownIsNoOp | components/GorevlerTablosu.tsx:153 | a drop involving a column not in the order only ends the drag |
| ColumnLayout.DropKeepsDistinct | components/GorevlerTablosu.tsx:146-159 | a drop never duplicates a column |
| ColumnLayout.Pin | components/GorevlerTablosu.tsx:165-173 | the column is pinned on exactly the side asked for, last there; every other column keeps its side |
| ColumnLayout.PinKeepsOthersInOrder | components/GorevlerTablosu.tsx:167-168 | the other pinned columns keep their order on both sides |
| ColumnLayout.PinIdempotent | components/GorevlerTablosu.tsx:165-173 | pinning twice to the same side is pinning once |
| ColumnLayout.PinKeepsSidesDisjoint | components/GorevlerTablosu.tsx:165-173 | no column is ever pinned on both sides |
| ColumnLayout.UnpinUndoesPin | components/GorevlerTablosu.tsx:165-173 | unpinning after a pin is the same as unpinning alone |
| Visibility.CanView | components/ProjectsSection.tsx:388-399 | an admin sees every project; with a blank address only an admin sees anything; anyone else sees exactly the projects assigned to their trimmed, lower-cased address |
| Visibility.CanViewNormalised | components/GorevOzeti.tsx:22-29 | the viewer's address counts only up to case |
| Visibility.AssignMoreKeepsVisible | components/GorevOzeti.tsx:22-29 | adding an address to a project never hides it from someone who saw it |
| Visibility.VisibleIds | components/GorevOzeti.tsx:44-50 | an id is visible exactly when some project with that id is |
| Visibility.DashboardWithinSummary | components/DashboardSection.tsx:73-76 | every task the dashboard shows the summary shows too; they differ only on project ids of blanks |
| Visibility.AdminSeesAllTasks | components/GorevOzeti.tsx:53-60 | an admin sees every task of a listed project, on the dashboard and in the summary |
| ProjectsSection.NormalizePriority | components/ProjectsSection.tsx:62-68 | a priority is given exactly when the trimmed, lower-cased text is high, medium or low, and it is that word capitalised |
| ProjectsSection.NormalizePriorityIdempotent | components/ProjectsSection.tsx:62-68 | normalising twice is normalising once |
| ProjectsSection.ProjectDueLabel | components/ProjectsSection.tsx:71-82 | "overdue" exactly when a non-blank due date's midnight is before today's; "upcoming" exactly when it is today or within 30 days |
| ProjectsSection.CeilDivAtMost | components/ProjectsSection.tsx:79-80 | the rounded-up day count is at most n exactly when the gap is at most n days |
| ProjectsSection.DueLabelAsTimePasses | components/ProjectsSection.tsx:71-82 | as time passes an overdue project stays overdue, and an upcoming one stays labelled |
| ProjectsSection.AddAssignedEmail | components/ProjectsSection.tsx:137-144 | a non-blank, address-shaped, not yet listed input is appended normalised and the input cleared; anything else changes nothing |
| ProjectsSection.RemoveAssignedEmail | components/ProjectsSection.tsx:146-148 | the address is gone; every other address stays |
| ProjectsSection.AddKeepsWellFormed | components/ProjectsSection.tsx:137-144 | the list stays free of duplicates, normalised and address-shaped |
| ProjectsSection.RemoveUndoesAdd | components/ProjectsSection.tsx:137-148 | removing an address just added restores the list; adding the same address again changes nothing |
| ProjectsSection.FilteredProjectsIsStages | components/ProjectsSection.tsx:426-453 | the chain of filters is one filter with the composed test |
| ProjectsSection.StagesAreShown | components/ProjectsSection.tsx:426-453 | the composed test is: visible, matching the search, of the status, listed for the user when asked, dated within the range when one is set |
| ProjectsSection.FilteredProjectsMembers | components/ProjectsSection.tsx:426-453 | a project is listed exactly when it passes every set filter, and the list keeps the original order |
| ProjectsSection.MineIsVisible | components/ProjectsSection.tsx:388-443 | a project listed for the user is one the user may see |
| ProjectsSection.FirstFilled | components/ProjectsSection.tsx:498-501 | the content is the first non-blank value trimmed, and "" when every value is blank |
| ProjectsSection.JsonKey | components/ProjectsSection.tsx:493 | a key is never empty and never padded |
| ProjectsSection.JsonExtraValue | components/ProjectsSection.tsx:492-495 | each key holds the value of its column in the parsed row, or "" |
| ProjectsSection.FileRows | components/ProjectsSection.tsx:481-537 | reading fails exactly for a ".json" name (any case) whose text the JSON parser rejects; otherwise, with a header and a data row, row i is the extra data of the parsed row i (by header key for JSON, by column of the corrected CSV reading for any other name), and there are no rows without them |
| ProjectsSection.RowTaskShape | components/ProjectsSection.tsx:498-508 | a row gives a task exactly when some value is not blank; its content is the first non-blank value trimmed, its status "Yapılacak", with the new project's id, the form's assignee and priority, and the row as extra data |
| ProjectsSection.TasksOfKeepsFilledRows | components/ProjectsSection.tsx:491-511 | one task per row with some data, and the k-th task is that of the k-th such row in file order |
| ProjectsSection.ImportTasksOutcome | components/ProjectsSection.tsx:481-537 | nothing is imported without a file or a project id; it fails exactly on a rejected JSON file; every task imported has the project, "Yapılacak", the trimmed assignee or null, and the normalised priority; the k-th task takes its content (the first non-blank value) and its extra data from the k-th file row with data |
| TaskSummary.QuickCompleteCompletes | components/GorevOzeti.tsx:16-19 | the status the quick-complete button writes counts as completed |
| TaskSummary.StatusTestsIgnoreCase | components/GorevOzeti.tsx:16-19 | the completed and in-progress tests ignore letter case |
| TaskSummary.VisibleTasks | components/GorevOzeti.tsx:53-62 | a task is listed exactly when it has no project id, a blank one, or a visible project's id |
| TaskSummary.FilteredTasks | components/GorevOzeti.tsx:66-71 | the list keeps its order; in "mine" mode exactly the tasks whose lower-cased assignee contains the user's address remain, otherwise all |
| TaskSummary.MineWithBlankAddressKeepsAll | components/GorevOzeti.tsx:66-71 | with a blank address, "mine" keeps every task |
| TaskSummary.EqualsImpliesContains | components/GorevOzeti.tsx:68 | the equality half of the "mine" test adds nothing to the containment half |
| TaskSummary.GroupKey | components/GorevOzeti.tsx:77 | a group key is never empty: the trimmed assignee or "Atanmamış" |
| TaskSummary.GroupedIsGroupsOf | components/GorevOzeti.tsx:75-80 | one group per key, each holding exactly the tasks with that key, in task order |
| TaskSummary.TasksByAssignee | components/GorevOzeti.tsx:74-82 | the groups are sorted by size, larger first, and are a permutation of the grouping |
| Common.SortByTies | components/GorevOzeti.tsx:81 | the sort is stable: the elements of any one rank come out in their input order |
| TaskSummary.GroupedFirstAppearance | components/GorevOzeti.tsx:74-79 | the `Map` lists the groups in the order their keys first occur among the tasks |
| TaskSummary.TasksByAssigneeTies | components/GorevOzeti.tsx:80-82 | the sort is stable: groups of equal size keep the `Map`'s order, hence their order of first appearance |
| TaskSummary.TasksByAssigneeGroups | components/GorevOzeti.tsx:74-82 | after sorting, each key still has exactly its own tasks, keys are distinct, and sizes never increase |
| TaskSummary.TaskInItsGroup | components/GorevOzeti.tsx:74-82 | every task appears in the group of its key |
| TaskSummary.Percent | components/GorevOzeti.tsx:93 | a share is at most 100 |
| TaskSummary.PercentIsNearest | components/GorevOzeti.tsx:93 | the percentage is the whole number nearest to the exact share, halves rounded up |
| TaskSummary.SummaryStats | components/GorevOzeti.tsx:84-95 | the total is the task count; completed, in-progress and high-priority are the counts of their tests; the completion rate is the rounded share of completed tasks, 0 without tasks |
| TaskSummary.StatsPartition | components/GorevOzeti.tsx:84-95 | done, in progress and to do add up to the total; the rate is at most 100, and 0 without tasks |
| TaskSummary.WeeklyTrend | components/GorevOzeti.tsx:98-107 | this week's count is the number of completed tasks updated since a week ago, at most the completed count |
| TaskSummary.WeeklyTrendMembers | components/GorevOzeti.tsx:101-105 | the tasks counted are exactly the completed ones with a non-empty update time no earlier than a week ago |
| TaskSummary.WeeklyTrendMonotone | components/GorevOzeti.tsx:98-107 | looking further back never counts fewer completed tasks |
| TaskSummary.RecentTasks | components/GorevOzeti.tsx:109-117 | at most twelve of the tasks, each from the list, newest first |
| TaskSummary.RecentTasksAreNewest | components/GorevOzeti.tsx:109-117 | no task left out is newer than one listed |
| TaskSummary.RecentTasksTies | components/GorevOzeti.tsx:109-117 | the sort is stable: listed tasks with the same time keep their order in the list and are the first tasks of that time |
| TaskSummary.UrgentTasksMembers | components/GorevOzeti.tsx:120-144 | a task is urgent exactly when it is not completed and either high priority without a due date or due by the end of today |
| TaskSummary.TaskUrgency | components/GorevOzeti.tsx:146-159 | a completed task is normal; an open task is overdue exactly when due before today, due today exactly when due between the start and end of today, and high exactly when high priority and either undated or due after today |
| TaskSummary.UrgencyMatchesUrgentList | components/GorevOzeti.tsx:120-159 | an overdue or due-today task is in the urgent list, and every task in it has a marker |
| Dashboard.BucketsCoverNonBlank | components/DashboardSection.tsx:29-37 | a blank status is in no bucket; every other status is in at least one |
| Dashboard.ProgressSubsumesInProgress | components/DashboardSection.tsx:32-34 | the "in progress" alternative is already covered by "progress" |
| Dashboard.VisibleProjects | components/DashboardSection.tsx:61-64 | the visible projects, in order, are exactly those the user may see |
| Dashboard.VisibleTasks | components/DashboardSection.tsx:73-76 | a task is listed, in order, exactly when it has no project id or a visible project's id |
| Dashboard.VisibleIdsOfVisibleProjects | components/DashboardSection.tsx:65 | an id is visible exactly when a visible project carries it |
| Dashboard.DashboardTasksInSummary | components/DashboardSection.tsx:40-76 | every task the dashboard lists, the task summary lists for the same user |
| Dashboard.KeyFigures | components/DashboardSection.tsx:77-84 | the project and task counts are those of the visible lists; each bucket counts the visible tasks whose status falls in it, at most the task count |
| Dashboard.KeyFiguresBuckets | components/DashboardSection.tsx:77-84 | no bucket holds more than the visible tasks with a non-blank status, and the three together hold each of them at least once |
| Dashboard.BucketsCoverNonBlankTasks | components/DashboardSection.tsx:80-82 | the tasks in at least one bucket are exactly those with a non-blank status |
| Dashboard.ChartTotal | components/DashboardSection.tsx:108 | the chart's whole is positive and no bucket exceeds it |
| Dashboard.StatusChart | components/DashboardSection.tsx:106-114 | three bars, to do, in progress and done, carrying the bucket counts; each share is the rounded percentage of its count in the chart's whole, at most 100, and all are 0 when every bucket is empty |
| Dashboard.ChartSharesAddUp | components/DashboardSection.tsx:106-114 | with some task in a bucket the three rounded shares add up to 99, 100 or 101 |
| Dashboard.SharesBound | components/DashboardSection.tsx:110-112 | three rounded shares of parts making up a whole are together off by at most one point |
| Dashboard.RecentTasks | components/DashboardSection.tsx:86-94 | at most ten visible tasks, newest first |
| Dashboard.RecentTasksAreNewest | components/DashboardSection.tsx:86-94 | no visible task left out is newer than one listed |
| Dashboard.RecentTasksTies | components/DashboardSection.tsx:86-94 | the sort is stable: listed tasks with the same time keep their visible order and are the first visible tasks of that time |
| Dashboard.RecentProjects | components/DashboardSection.tsx:96-104 | at most five visible projects, newest first by update or else creation time |
| Dashboard.RecentProjectsAreNewest | components/DashboardSection.tsx:96-104 | no visible project left out is newer than one listed |
| Dashboard.RecentProjectsTies | components/DashboardSection.tsx:96-104 | the sort is stable: listed projects with the same time keep their visible order and are the first visible projects of that time |
| OnlineUsers.Initials | components/OnlineUsersPanel.tsx:31-40 | an avatar shows one or two characters; a one-word name gives its first two characters in upper case |
| OnlineUsers.InitialsFallBack | components/OnlineUsersPanel.tsx:31-40 | without a name the initials are the upper-cased first two characters of the address, else the last two of the key, else "?" |
| OnlineUsers.InitialsIgnoreSpacing | components/OnlineUsersPanel.tsx:32-34 | for names of two words or more only the words count, not the spacing between them, and the address and key are not consulted |
| OnlineUsers.DisplayLabel | components/OnlineUsersPanel.tsx:42-46 | a label is never empty: the trimmed name when not blank, else the address when not empty, else the first twelve characters of the key (all of a shorter key) followed by "…" |
| OnlineUsers.InitialsOfLabel | components/OnlineUsersPanel.tsx:35-46 | where the label is the address, or a one-word name without surrounding blanks, the avatar shows the label's first two characters in upper case |
| OnlineUsers.FirstFromSpec | components/OnlineUsersPanel.tsx:56-60 | the search returns the first match from its starting point, and nothing exactly when there is no match |
| OnlineUsers.EditingRowForSpec | components/OnlineUsersPanel.tsx:49-61 | the row reported is the first whose editor has the user's normalised address or name; none exactly when no editor matches, so a user with neither is never shown editing |
| OnlineUsers.NoAddressIsMeWhenSignedOut | components/OnlineUsersPanel.tsx:117 | with nobody signed in, every online user without an address is marked as the current user |
| OnlineUsers.TaskById | components/OnlineUsersPanel.tsx:75-79 | a task found has the id asked for and is in the list; none is found exactly when no task carries the id |
| OnlineUsers.Snippet | components/OnlineUsersPanel.tsx:118-124 | a snippet is shown exactly when the user edits a row, and is at most 37 characters long; a row whose task is unknown shows "Bir satır" |
| OnlineUsers.SnippetOfContent | components/OnlineUsersPanel.tsx:120-121 | the snippet of a task with content is that content, cut to 36 characters followed by "…" when longer |
| OnlineUsers.RenderPanel | components/OnlineUsersPanel.tsx:83-117 | nothing is shown without online users; in compact mode only the count badge; otherwise the count and one entry per online user, in order |
| LiveTasks.FirstLetters | hooks/useGorevlerFirestore.ts:40 | one letter per word: the first letter of each |
| LiveTasks.Initials | hooks/useGorevlerFirestore.ts:36-44 | the upper-cased first letters of the first two words of the trimmed name, or "—" for a blank name |
| LiveTasks.InitialsIgnoreSpacing | hooks/useGorevlerFirestore.ts:36-44 | names with the same words have the same initials, whatever the spacing |
| LiveTasks.ReadDoc | hooks/useGorevlerFirestore.ts:46-58 | a read task keeps the document id; task and assignee names read as their text, "" when missing; status and priority are kept, defaulting to "Beklemede" and "Medium"; the editor reads as its text or is absent; the time is the stored stamp, or the current time without one |
| LiveTasks.AddThenRead | hooks/useGorevlerFirestore.ts:103-119 | a task added and read back has the fields it was given, its assignee's initials and the server time |
| LiveTasks.Updated | hooks/useGorevlerFirestore.ts:121-136 | an update keeps the document id and always stamps the server time |
| LiveTasks.EmptyPatchKeepsFields | hooks/useGorevlerFirestore.ts:121-136 | an empty patch changes no stored field |
| LiveTasks.InitialsStayInStep | hooks/useGorevlerFirestore.ts:103-136 | adding stores the initials of the name, and every update keeps stored initials in step with the stored name |
| LiveTasks.ReadInStep | hooks/useGorevlerFirestore.ts:46-58 | a document whose initials are in step reads back with the initials of its name |
| LiveTasks.ReadAll | hooks/useGorevlerFirestore.ts:88 | a snapshot gives one task per document, in snapshot order |
| LiveTasks.Step | hooks/useGorevlerFirestore.ts:66-101 | disabled: no tasks, not loading, not live; no database or a listener error: the tasks stay and loading stops, and an error is not live; a snapshot: live, loaded, the documents read in order |
| LiveTasks.LiveIsLoaded | hooks/useGorevlerFirestore.ts:66-101 | over any run of events the list is never live while still loading |
| LiveTasks.LiveNeedsSnapshot | hooks/useGorevlerFirestore.ts:66-101 | the list becomes live only through a snapshot |
| Notifications.BeforeIrreflexive | hooks/useNotificationSummary.ts:37 | no date text is before itself |
| Notifications.BeforeTransitive | hooks/useNotificationSummary.ts:37 | the text order of dates is transitive |
| Notifications.AssignedProjects | hooks/useNotificationSummary.ts:32-34 | exactly the projects one of whose assigned addresses normalises to the user's address |
| Notifications.MyTasks | hooks/useNotificationSummary.ts:35 | exactly the tasks whose normalised assignee is the user's address |
| Notifications.OverdueTasks | hooks/useNotificationSummary.ts:37 | in order, exactly the user's tasks with a non-blank due date before today |
| Notifications.DueTodayIsNotOverdue | hooks/useNotificationSummary.ts:36-37 | a task due today or later is not overdue |
| Notifications.SumCountsAppend | hooks/useNotificationSummary.ts:65 | the total of two lists of items is the sum of their totals |
| Notifications.Items | hooks/useNotificationSummary.ts:39-63 | the items have positive counts, come in the order projects, tasks, overdue, add up to the three counts, and each kind is present exactly when its count is not zero |
| Notifications.Summarize | hooks/useNotificationSummary.ts:28-72 | loading while either list loads; the total is the sum of the items; a blank address gives no items and a zero total |
| Notifications.SummaryTotal | hooks/useNotificationSummary.ts:29-65 | for a signed-in user the total is assigned projects plus own tasks plus overdue own tasks, and the overdue ones are at most the own tasks |
| Notifications.SubsequenceLength | hooks/useNotificationSummary.ts:37 | a filtered list is no longer than the list it was filtered from |
| Notifications.MatchingIgnoresCase | hooks/useNotificationSummary.ts:35 | capitals in a task's assignee do not decide whether it is the user's |
| TaskCounts.CountSnoc | hooks/useTaskCountByProject.ts:19-24 | one more row adds one to the count of its own project id only |
| TaskCounts.CountedKey | hooks/useTaskCountByProject.ts:20-23 | counting one more row keeps every non-empty id's entry equal to the number of rows naming it |
| TaskCounts.CountRowsDistinct | hooks/useTaskCountByProject.ts:18-24 | the counts hold each project id once |
| TaskCounts.CountRowsSkipsEmpty | hooks/useTaskCountByProject.ts:21 | rows without a project id, or with an empty one, are not counted |
| TaskCounts.CountRowsCounts | hooks/useTaskCountByProject.ts:18-24 | each project id maps to the number of rows naming it, and an id no row names has no entry |
| TaskCounts.AfterFetch | hooks/useTaskCountByProject.ts:10-26 | a failed fetch clears the counts; a successful one gives exactly the per-project row counts |
| LiveTable.Columns | components/GorevlerTablosu.tsx:109-111 | the six base columns come first, and an actions column is present exactly when the database is configured |
| LiveTable.OpenAdd | components/GorevlerTablosu.tsx:175-211 | submitting the freshly opened add form, whatever was typed before, adds an unnamed, unassigned task with status "Beklemede" and priority "Medium" |
| LiveTable.OpenEdit | components/GorevlerTablosu.tsx:184-211 | the edit form opens on the row, and saving it untouched updates that row under its id with its own status and priority and its name and assignee trimmed |
| LiveTable.Submit | components/GorevlerTablosu.tsx:193-211 | nothing is written while the live list is off; an edited row is updated under its id and a new task added otherwise; names are trimmed and a blank new name becomes "İsimsiz görev"; no editor is written |
| LiveTable.AfterSubmit | components/GorevlerTablosu.tsx:193-214 | a successful write closes the form and ends editing, but keeps the typed text, so submitting again would add a new task; after a failure the same submit repeats the same write |
| LiveTable.EditUnchangedKeepsTask | components/GorevlerTablosu.tsx:193-219 | editing a stored task and saving it unchanged writes it back as it was, except for the time stamp |
| LiveTable.ReadBackUnchanged | hooks/useGorevlerFirestore.ts:46-58 | restamping a document changes only the time it reads back with |
| LiveTable.LiveStats | components/GorevlerTablosu.tsx:366-375 | one counter per status option, the total, the high-priority count, and the done share as a rounded percentage, 0 without tasks |
| LiveTable.StatusCountsPartition | components/GorevlerTablosu.tsx:367-371 | each task is counted under exactly one status option or under none of them |
| LiveTable.CountersAddUp | components/GorevlerTablosu.tsx:367-371 | when every status is one of the form's options, the four counters add up to the total |
| LiveTable.NoneCounted | components/GorevlerTablosu.tsx:367-371 | a test no task passes counts zero |
| Navigation.PageTitle | components/layout/Header.tsx:21-30 | each page title belongs to exactly the paths that lead to it, and "Dashboard" to every other path |
| Navigation.Leading | components/layout/Header.tsx:43-45 | at most one letter per piece of the name |
| Navigation.DisplayName | components/layout/Header.tsx:40 | the name shown is the display name when not empty, else the address when not empty, else "Kullanıcı" |
| Navigation.UserInitials | components/layout/Header.tsx:42-47 | the header initials are one or two characters |
| Navigation.UnknownUserInitials | components/layout/Header.tsx:40-47 | without a display name or an address the header shows "Kullanıcı" with the initial "K" |
| Navigation.UserInitialsOfWords | components/layout/Header.tsx:42-47 | a name of words between single spaces gives the upper-cased first letters of its first two words |
| Navigation.LeadingOfWords | components/layout/Header.tsx:43-45 | non-empty pieces each give their first letter, in order |
| Navigation.SplitJoin | components/layout/Header.tsx:43 | splitting words joined by a separator they do not contain gives the words back |
| Navigation.SplitNoSeparator | components/layout/Header.tsx:43 | text without the separator splits into itself |
| Navigation.SplitPrefix | components/layout/Header.tsx:43 | splitting stops at the first separator |
| Navigation.SpacesOnlyGiveDefault | components/layout/Header.tsx:42-47 | a name of spaces only gives "KU" |
| Navigation.LeadingOfSpaces | components/layout/Header.tsx:43-45 | a name of spaces only has no leading letters |
| Navigation.VisibleMenu | components/layout/Sidebar.tsx:33-39 | the entries shown, in menu order, are exactly those without a permission or whose permission the user has |
| Navigation.DashboardAlwaysListed | components/layout/Sidebar.tsx:33-39 | every user sees the dashboard entry first |
| Navigation.ActiveOnOwnPath | components/layout/Sidebar.tsx:60-71 | an entry is highlighted exactly on its own path, except the projects entry, which is highlighted on every path starting with its own |
| Navigation.OneActiveEntry | components/layout/Sidebar.tsx:60-71 | at most one entry is highlighted on any path |
| Navigation.TitleMatchesActiveEntry | components/layout/Sidebar.tsx:33-71 | where an entry other than projects is highlighted, the header title is its caption |
| SettingsPage.SearchIgnoresCase | app/ayarlar/page.tsx:19-23 | lower-casing the query does not change which rows match |
| SettingsPage.SearchFindsOwnLabel | app/ayarlar/page.tsx:19-23 | a row is always found by its own label |
| SettingsPage.NoneMatchNeedsQuery | app/ayarlar/page.tsx:565 | "nothing matches" is not shown while a row matches, nor for a blank query |
| SettingsPage.SubmitPassword | app/ayarlar/page.tsx:232-246 | the form succeeds exactly when the new password and its confirmation agree and are at least eight characters long; success clears the three fields, failure changes only the message |
| SettingsPage.CurrentPasswordIgnored | app/ayarlar/page.tsx:232-246 | the current password typed makes no difference to the outcome |
| SettingsPage.SecondSubmitFails | app/ayarlar/page.tsx:242-245 | submitting again after a success fails, as the fields were cleared |
| SettingsPage.OtherIds | app/ayarlar/page.tsx:249 | exactly the ids of the sessions other than the current one |
| SettingsPage.CloseSession | app/ayarlar/page.tsx:248 | the closed session leaves the list, no session comes back, and only sessions other than the current one are ever closed |
| SettingsPage.CloseAllOther | app/ayarlar/page.tsx:249 | after closing all others every listed session is a current one, and with unique ids the current session is still listed |
| SettingsPage.ActiveSessions | app/ayarlar/page.tsx:250 | the sessions listed, in order, are exactly those not closed |
| SettingsPage.ClosingKeepsToOthers | app/ayarlar/page.tsx:248-249 | both ways of closing close only sessions other than the current one |
| SettingsPage.CurrentNeverClosed | app/ayarlar/page.tsx:248-250 | the current session stays listed, and after closing all others only current sessions remain |
| SettingsPage.AddKey | app/ayarlar/page.tsx:466-469 | a new key is appended under the given id, with a masked value starting with the fixed prefix, and the others are kept |
| SettingsPage.RemoveKey | app/ayarlar/page.tsx:470 | in order, exactly the keys with another id remain |
| SettingsPage.AddWebhook | app/ayarlar/page.tsx:471-475 | a blank URL changes nothing; otherwise the trimmed URL is appended and the input cleared |
| SettingsPage.RemoveWebhook | app/ayarlar/page.tsx:476 | in order, exactly the webhooks with another id remain |
| SettingsPage.RemoveUndoesAdd | app/ayarlar/page.tsx:471-476 | removing a webhook just added under a fresh id restores the list |
| SettingsPage.RemoveKeyUndoesAdd | app/ayarlar/page.tsx:466-470 | removing a key just added under a fresh id restores the list |
| SettingsPage.StartReset | app/ayarlar/page.tsx:567-571 | the reset starts only for the exact word "SIFIRLA", marking it as running and clearing the error; anything else changes nothing |
| SettingsPage.ResetGate | app/ayarlar/page.tsx:567-780 | the enabled button always starts the reset, only the exact word starts it, and neither a blank-prefixed nor a lower-case spelling does |
| AuthGuard.Redirect | components/AuthGuard.tsx:13-19 | the only place the guard ever sends a visitor is the sign-in page |
| AuthGuard.Render | components/AuthGuard.tsx:13-29 | the placeholder is shown exactly when the effect's early returns let the redirect through, so page content never shows to a visitor about to be sent away; the sign-in page and a signed-in user always see the page |
| AuthGuard.RedirectSettles | components/AuthGuard.tsx:13-29 | after being sent to the sign-in page the guard neither redirects again nor hides the page |
| AuthGuard.NoGuardBeforeLoadOrWithoutSignIn | components/AuthGuard.tsx:13-29 | before the session is read, or with sign-in off, every page is shown and nobody is redirected |

## Left out

- Database and channel I/O: every fetch, insert, update, delete, subscribe, track and broadcast is an input or an event here; the clients themselves are not part of this model.
- Rendering, JSX and React effect lifecycles: only the values the components compute are modelled.
- Timers: the feed's 1.5-second fallback, the presence re-reads after 80 and 350 ms and the settings debounce are discrete events.
- The focus listeners of hooks/useTasksWithRealtime.ts and hooks/useProjects.ts only trigger a fetch, which is an event of the model.
- Clocks and date parsing: instants are integers (milliseconds or day numbers), and reading a stored time stamp is the parameter `timeOf`, which gives `None` for an unparsable date where the source checks for one. Where it does not (the weekly trend, the urgent list and badge and the recent lists of components/GorevOzeti.tsx and components/DashboardSection.tsx), `timeOf` gives an integer for every text, so the model does not capture that an invalid date reads as NaN and then fails every comparison (for instance, `new Date(bad) >= weekAgo` is false, so such a task is never counted in the weekly trend).
- The locale date string that `getRelativeTime` returns for seven days or more is a bucket without text.
- `Math.random`: it is used for client ids and API key suffixes, which are inputs.
- `JSON.parse`, `JSON.stringify`, `localStorage`, `FileReader`, Blob downloads and XLSX export are parameters or left out; only what the code does with their results is modelled.
- Object key order: `Object.keys` lists integer-like keys first in JavaScript, while the model keeps insertion order for every key.
- Percentages (`Math.round(a / b * 100)`) are computed in exact arithmetic, halves rounded up; a floating-point quotient that falls just short of a half is not modelled.
- Case mapping covers ASCII and the Turkish letters that map one to one. `toLowerCase` of 'İ' (two code units) and `toUpperCase` of 'ß' ("SS") are not modelled, and other non-ASCII letters are left unchanged.
- The case-insensitive regular expressions over status text are written as predicates, not derived from JavaScript's regular expression semantics.
- String lengths and the `<` order of strings count Unicode characters, not UTF-16 code units. This is the same for text without characters outside the Basic Multilingual Plane, such as the `yyyy-mm-dd` dates compared in hooks/useNotificationSummary.ts.
- ProjectFeed.MapRow: a present status that is not a string is converted with `String(v)`. The source keeps the raw value, which its type says is a string.
- ProjectFeed.Apply: built on the corrected priority parse (ProjectFeed.MapRow), so a change whose priority is "slow" stores a null priority, where the reducer as written stores "Slow"; ProjectFeed.MapRowAsWritten reads a row the way the code does.
- ProjectFeed.AfterFetch: built on the corrected priority parse in the same way, so a fetched "slow" priority is null here and "Slow" in the code as written.
- JsValue.ToStr: numbers are integers. A fractional number such as 1.5 ("1.5") has no value in the model, and from 1e21 on `String` gives the exponent form ("1e+21") where the model writes every digit.
- Permissions: the stored key text of each permission is given by a function, but that no two permissions share a key is not proved.
- LiveTasks: `deleteTask` (hooks/useGorevlerFirestore.ts:138-142) is a single database call without client-side logic. The "Firestore yok" error that `addTask` and `updateTask` throw without a database is not modelled either.
- SettingsPage: the database calls of the full reset after its confirmation gate (app/ayarlar/page.tsx:572 on) are left out, as are the dialog open/close flags.
- TaskCounts: the refetch on every change to the task table (hooks/useTaskCountByProject.ts:32-44) is the fetch itself; the channel is left out.
- Multi-client convergence: the code implements one client's reducer and promises nothing across clients.
- ProjectsSection.FileRows: built on the corrected CSV reading (CsvParser.Parse), so a file not named ".json" whose lines are `"a,b","c"` and `"x,y","z"` has the columns `a,b` and `c` here. The code as written (CsvParser.ParseAsWritten) drops the quotes and reads the columns `a`, `b` and `c`, with the row {a: "x", b: "y", c: "z"}.
- ProjectsSection.ImportTasksOutcome: rests on FileRows, so for such a file the imported task's content is "x,y" here and "x" in the code as written, and its extra data is keyed by the corrected columns.
- Settings: `lastSavedAt` and `userHasChangedRef` (contexts/settings-context.tsx:86-88, 103-104, 113, 137, 150) only record the clock time of the last save for display, so they are left out with the clock; the model does not say when that time is set.
- OnlineUsers.TaskById: with repeated task ids it does not say which task is found (the source's map keeps the last one, as does the model).
- OnlineUsers.Initials: the one-word case takes the first two characters of the untrimmed name, as the source does, so a name with a leading blank shows that blank.

## Findings

| source | as written | input that shows it | evidently intended | confidence | as-written member | corrected member |
|---|---|---|---|---|---|---|
| lib/csvParser.ts:20-23 | the first pass toggles its quote flag on `"` and drops the character, so the second pass never sees quotes and splits every delimiter | the header line `"a,b","c"` gives three columns `a`, `b`, `c` | quoted fields keep their delimiters, as the file's own comment says: two columns `a,b` and `c` | not executed | CsvParser.ParseAsWritten, CsvParser.QuotedDelimiterSplitAsWritten | CsvParser.Parse, CsvParser.ParseQuotedFile |
| hooks/useProjects.ts:37 | `/^high\|medium\|low$/i` anchors only the first and last alternatives, so it tests "starts with high, or holds medium, or ends with low" | the priority "slow" is accepted and stored as "Slow" | accept exactly high, medium or low in any case, `/^(high\|medium\|low)$/i` | not executed | ProjectFeed.PriorityAsWritten, ProjectFeed.PriorityAsWrittenAdmitsSlow | ProjectFeed.Priority, ProjectFeed.PriorityRoundTrip |
