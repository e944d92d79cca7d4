# As-built construction dashboard — a Dafny model

The dashboard follows the fit-out of a building, room by room. Each room
("sala") carries:

- its field checks: the Augin model, the tracker, the laminated QR code;
- two verification dates;
- review notes;
- a list of elements ("ifcExpressId") of the 3D IFC model that it owns.

Issues ("apontamentos") are filed against rooms by name, and each goes to a
responsible company by its discipline. As-built deliveries ("entregas")
carry a status and a history. A spreadsheet upload replaces rooms and
issues but keeps the room→element links. A 3D viewer colours the model by
room status and lets the user link elements to rooms. PDF and Excel
reports list the issues and rooms.

This project models that core:

- **The server side.** The status rules, the data layer over in-memory
  tables, the link/unlink operations with their exclusivity invariant, the
  statistics, the routes, the spreadsheet upload, the IFC file store and
  the report contents.
- **The client side.** The viewer controller (scene, colour subsets,
  selection, x-ray), the mapping panel, the optimistic cache of the data
  hub, the offline field-report form and the deliveries tab.

It proves what these promise, and where they fall short.

Modules:

| module | file | models |
|---|---|---|
| `Common`, `Text`, `Ordering` | common.dfy, text.dfy, ordering.dfy | JavaScript truthiness, the string operations the code uses (split/join/trim, case mapping on ASCII and Latin-1, `parseInt` of the digits, `padStart`, `path.basename`), and the stable `Array.prototype.sort` with its comparators |
| `Records` | records.dfy | the rows of the tables (`drizzle/schema.ts`) |
| `Automation` | automation.dfy | `server/automationService.ts` |
| `Links` | links.dfy | the value semantics of `linkIfcToRoom` / `unlinkIfcFromRoom` (`server/db.ts`) |
| `Backend` | backend.dfy | the `Database` class: tables as sequence fields, and the mutating data-layer operations of `server/db.ts` as methods |
| `Stats` | stats.dfy | the colour rules, `getStatsStatus`, `getKPIs`, `getEntregasStats` |
| `Routers` | routers.dfy | the procedures of `server/routers.ts` that write |
| `Upload` | upload.dfy | `server/uploadHandler.ts` |
| `IfcFiles` | ifcfiles.dfy | `server/ifcHandler.ts` |
| `Reports` | reports.dfy | `server/reportGenerator.ts` |
| `Viewer` | viewer.dfy | `client/src/hooks/useIfcViewer.ts` (class `IfcViewerController`) |
| `ViewerPanel` | viewer_panel.dfy | `client/src/components/ifc/IfcViewer.tsx` (class `MappingPanel`) |
| `DataHub` | datahub.dfy | `client/src/components/dashboard/DataHubTab.tsx` (class `SalasCache`) |
| `FieldReport` | fieldreport.dfy | `client/src/components/dashboard/FieldReportTab.tsx` (class `FieldReportForm`) |
| `Entregas` | entregas.dfy | `client/src/components/dashboard/EntregasTab.tsx` |

Dates are `When` values: a stored time in milliseconds or a raw text. The
status rules only ever ask whether a date is set. Reading a date text is a
function parameter (`parse`). The current time, `Date.now()`, random UUIDs
and the outcome of network calls are parameters too.

## Model

| member | source | states |
|---|---|---|
| Automation.CalculateStatusRA | server/automationService.ts:7-14 | a room is LIBERADO PARA OBRA exactly when augin, tracker and QR code are all 1, otherwise PENDENTE |
| Automation.AssignResponsavel | server/automationService.ts:22-32 | THA exactly for the upper-cased disciplines of Thá's list, OCLE exactly for Ocle's, NÃO DEFINIDO exactly for any other discipline |
| Automation.AssignResponsavelIgnoresCase | server/automationService.ts:23 | two disciplines equal up to letter case go to the same company |
| Automation.CalculateRoomStatus | server/automationService.ts:41-52 | VERIFICADA exactly when the second date is set, or there are no notes and the first date is set; REVISAR exactly when there are notes and no second date; PENDENTE otherwise |
| Routers.RulesReadOnlyInputs | server/automationService.ts:7-52 | both rules depend only on the checks, the notes and the two dates |
| Backend.FindRoom | server/db.ts:93-98 | the room found has the id and comes from the table; none is found exactly when no row has the id |
| Backend.FindUniqueRoom | server/db.ts:93-98 | with unique ids the lookup returns the one row with that id |
| Backend.Database.constructor | server/db.ts:22-40 | a fresh database holds empty tables and an empty upload directory, and is valid |
| Links.SetCol | server/db.ts:105 | a column update by id keeps every row, and every row keeps its id |
| Links.IdsOfJoin | server/db.ts:112-133 | reading back a list of trimmed, comma-free ids written with commas gives the list (except that `[""]` reads back as empty) |
| Links.ReleasedIds | server/db.ts:112-121 | a room that does not list the linked id keeps its list; one that does keeps every other entry, in order, and never the linked one (a lone empty entry reads back as no list) |
| Links.ClaimedIds | server/db.ts:127-133 | the target lists its old ids plus the new one, appended once, in order |
| Links.LinkNullClearsTarget | server/db.ts:104-106 | linking null empties the target's list and leaves every other row as it was |
| Links.LinkReleasesOthers | server/db.ts:110-121 | after a link no other room lists the id; each other room's list is exactly its old list without that id, in order; no other column of any row changes |
| Links.LinkAppendsToTarget | server/db.ts:127-133 | the target ends with its old list plus the id appended, or unchanged when it already listed it |
| Links.LinkIdempotent | server/db.ts:100-135 | linking the same id to the same room twice gives the table that linking it once gives |
| Links.LinkPreservesExclusive | server/db.ts:100-135 | for a clean id, or for null, a link keeps every element owned by at most one room |
| Links.UnlinkRemoves | server/db.ts:147-151 | unlinking removes every occurrence of the id and keeps the other entries in order; the column becomes null exactly when nothing is left |
| Links.UnlinkWithoutListIsNoOp | server/db.ts:142-145 | a missing room, or a room with no list, is left alone and the answer is false |
| Links.UnlinkPreservesExclusive | server/db.ts:137-152 | unlinking keeps element ownership exclusive |
| Links.UntrimmedLinkBreaksExclusive | server/db.ts:108-133 | as written: linking " 7" to room 2 while room 1 lists "7" leaves both rooms listing 7 |
| Links.NormalisedLinkPreservesExclusive | server/db.ts:108-133 | with the id trimmed before it is stored, every link keeps ownership exclusive, whatever text is sent |
| Links.NormalisedAgreesOnTokens | server/db.ts:108-133 | for an id already trimmed and free of commas, the corrected link and the link as written give the same table |
| Backend.Database.LinkIfcToRoom | server/db.ts:100-135 | the loop over the rooms writes exactly the table that `LinkRows` specifies; the answer is false only for a link to a missing room |
| Backend.Database.ClaimForRoom | server/db.ts:123-134 | once the other rooms have given the id up, adding it to the target room (without duplicating it) completes the table `LinkRows` specifies; the answer is false exactly when the target room is missing |
| Backend.Database.UnlinkIfcFromRoom | server/db.ts:137-152 | writes exactly the table that `UnlinkRows` specifies; the answer is false for a missing room or one with no list |
| Backend.PatchRows | server/db.ts:664-675 | an update by id keeps every row, and every row keeps its id |
| Backend.WithId | server/db.ts:668-674 | `returning()` after an update by id gives exactly the rows (rooms or deliveries) that have the id |
| Backend.Database.UpdateSalaStatus | server/db.ts:664-675 | the sent fields and `updatedAt` go to the row with the id, and the rows with that id are returned |
| Backend.Database.CreateApontamento | server/db.ts:650-662 | the issue is appended under the next serial id with its creation time, and returned |
| Backend.AtNoon | server/db.ts:545-550 | a non-empty date text becomes a stored time; any other value is kept |
| Backend.FindEntrega | server/db.ts:556-557 | the delivery found has the id; none is found only when no row has it |
| Backend.UpdateEntregas | server/db.ts:559-562 | the update by id keeps the number of rows |
| Backend.StatusChangeLoggedIff | server/db.ts:564-573 | an update logs STATUS_ALTERADO exactly when the old status is set, the new one is non-empty and they differ |
| Backend.CreationLogsOnce | server/db.ts:580-598 | a creation logs exactly one CRIADO line for the new id; a comment sent with it is not logged |
| Backend.CommentLoggedIff | server/db.ts:601-610 | a comment is logged, as the last line and against the sent id, exactly when it is non-empty and the id is a stored delivery's; a comment for an id no delivery has logs nothing, since the history row's key references the deliveries (drizzle/schema.ts:131) |
| Backend.UpdateMissingIsNoOp | server/db.ts:559-562 | an update by an id no delivery has leaves the table as it was |
| Backend.Database.UpsertEntrega | server/db.ts:538-613 | with a truthy id the row is updated and returned and no id is used up; without one a new row is appended under the next id and returned; the history grows by exactly the lines the three lemmas above characterise; a comment for an id no delivery has makes the call fail, with the table unchanged |
| Backend.Numbered | server/uploadHandler.ts:49 | inserted rooms keep their order and take consecutive serial ids |
| Backend.NumberedAppend | server/uploadHandler.ts:40-50 | inserting two chunks one after the other numbers them as one insert of both would |
| Backend.Stamped | server/uploadHandler.ts:58 | inserted issues keep their order, take consecutive serial ids and share the insertion time |
| Backend.StampedAppend | server/uploadHandler.ts:56-59 | inserting two chunks of issues one after the other equals one insert of both |
| Backend.Database.ClearRoomsAndIssues | server/uploadHandler.ts:28-35 | both tables end empty |
| Backend.Database.InsertSalas | server/uploadHandler.ts:49 | the rooms are appended, numbered from the next serial id, and the counter moves past them |
| Backend.Database.InsertApontamentos | server/uploadHandler.ts:58 | the issues are appended, numbered from the next serial id, and the counter moves past them |
| Backend.Database.RecordUpload | server/uploadHandler.ts:63-70 | the upload record is appended to the log |
| Upload.BackupOfCorrect | server/uploadHandler.ts:19-25 | a name is backed up exactly when some room of that name has a list, and it maps to the list of the last such room |
| Upload.BuildBackup | server/uploadHandler.ts:19-25 | the `forEach` builds exactly that backup map |
| Upload.Restored | server/uploadHandler.ts:44-47 | a new room takes the backed-up list of its name, or no list at all, whatever the spreadsheet said; no other column changes |
| Upload.RestoredAll | server/uploadHandler.ts:44-47 | every row of a chunk is restored in place |
| Upload.RestoreKeepsLinks | server/uploadHandler.ts:19-47 | a new room whose name had a linked old room gets the list of the last such room; otherwise it gets none |
| Upload.RestorePreservesExclusive | server/uploadHandler.ts:19-50 | when the old table was exclusive and the new names are distinct, the new table is exclusive |
| Upload.DuplicateNamesShareLinks | server/uploadHandler.ts:44-47 | two new rooms with the name of a linked old room both get its list, so ownership stops being exclusive |
| Upload.BackupOfLast | server/uploadHandler.ts:19-25 | a name is backed up exactly when the scan finds a room of that name with a list, and the value kept is the list of the last such room, since each `set` overwrites the earlier one |
| Upload.InsertSalasInChunks | server/uploadHandler.ts:37-51 | after the 100-row chunks, the rooms table is every parsed room in order, with its restored list, under consecutive fresh ids |
| Upload.InsertApontamentosInChunks | server/uploadHandler.ts:53-60 | after the 100-row chunks, the issues table is every parsed issue in order, under consecutive fresh ids and the upload time |
| Upload.InsertIssueChunk | server/uploadHandler.ts:56-58 | one chunk of issues, inserted after the issues before it, extends the table of numbered, time-stamped issues |
| Upload.InsertChunk | server/uploadHandler.ts:40-50 | one chunk, restored and inserted after the rooms before it, extends the numbered, restored prefix |
| Upload.HandleExcelUpload | server/uploadHandler.ts:5-81 | the rooms end as the parsed rooms with restored links under fresh ids; the issues end as the parsed issues under fresh ids; one PROCESSADO upload is logged; the counts are answered |
| Stats.IssueCount | server/db.ts:497-506 | a room's issue count is at most the number of issues |
| Stats.IssueCountPositive | server/db.ts:497-506 | the count is positive exactly when some issue names the room |
| Stats.RoomColor | server/db.ts:505-513 | the status decides first (green for verified, amber for review, red for critical); only then do more than 10 issues give red, 1 to 10 orange and none grey |
| Stats.AllRoomsWithColors | server/db.ts:489-521 | every room, in table order, with its issue count and the colour of that rule |
| Stats.FindByName | server/db.ts:86-91 | the room found has the name; none is found only when no room has it |
| Stats.RoomStatusColor | server/db.ts:475-487 | an unknown room is grey; more than 10 issues make a known room red whatever its status; otherwise green exactly when the status names verified, amber exactly for review, grey exactly when it names no state (never orange) |
| Stats.ColourRulesAgree | server/db.ts:475-513 | the two colour rules agree on a room with no issues, and on one with 1 to 10 issues whose status names a state |
| Stats.ColourRulesDisagreeUnrecognised | server/db.ts:475-513 | a known room with 1 to 10 issues and a status naming no state is grey by `getRoomStatusColor` and orange in the 3D view |
| Stats.ColourRulesDisagreeOverTen | server/db.ts:475-513 | a verified room with 11 issues is green in the 3D view and red by `getRoomStatusColor` |
| Stats.RoomsIn | server/db.ts:182-185 | the building filter keeps exactly the rooms of that building; an empty or missing filter keeps every room |
| Stats.IssuesIn | server/db.ts:231-234 | the same filter on the issues |
| Stats.CountIssuesPerRoom | server/db.ts:239-242 | the issues-per-room map has exactly the names with issues, each with its issue count |
| Stats.InBucketStep | server/db.ts:246-259 | counting one more room adds one to its own bucket and nothing to the others |
| Stats.BucketsPartition | server/db.ts:244-259 | every room falls in exactly one of the four buckets |
| Stats.ComputedStatusBucket | server/db.ts:244-259 | a status written by the server rule lands in its own bucket when the room has at most 10 issues |
| Stats.TallyBuckets | server/db.ts:246-259 | the loop counts each bucket exactly |
| Stats.RoomIssueCount | server/db.ts:247 | the count read from the map is the room's number of issues, and 0 for a name with none |
| Stats.TallyRoom | server/db.ts:248-258 | one room adds one to the counter of its own bucket and leaves the other three unchanged |
| Stats.GetStatsStatus | server/db.ts:224-267 | the four counts of the building's rooms, in the fixed order and colours; they add up to the number of rooms |
| Stats.CountVerified | server/db.ts:193-196 | the verified KPI never exceeds the number of rooms |
| Stats.CountReleased | server/db.ts:198-201 | the released KPI never exceeds the number of rooms |
| Stats.VerifiedKpiMatchesRule | server/db.ts:193-196 | a status written by the server rule counts as verified exactly when it is not PENDENTE |
| Stats.ReleasedKpiMatchesRule | server/db.ts:198-201 | a release status written by the server rule counts exactly when the rule released the room |
| Stats.CriticalNames | server/db.ts:208-209 | a room name is critical exactly when more than 10 issues name it |
| Stats.CriticalFromMap | server/db.ts:203-209 | the names over 10 read off the issues-per-room map are exactly the critical names |
| Stats.CountOverTen | server/db.ts:208-209 | the loop counts the map entries over 10 |
| Stats.GetKPIs | server/db.ts:175-222 | total rooms and issues of the building, verified and released rooms (each at most the total), and the number of critical room names |
| Stats.EntregasIn | server/db.ts:626-629 | the building filter on the deliveries |
| Stats.CountStatus | server/db.ts:634-640 | a status counter never exceeds the number of deliveries |
| Stats.CountLate | server/db.ts:641-645 | the late counter never exceeds the number of deliveries |
| Stats.GetEntregasStats | server/db.ts:622-646 | the total counts the deliveries of the building; the five status counters add up to at most the total, and to the total when every status is one of the five; late deliveries are among the awaited ones |
| Stats.EntregasStatsConsistent | server/db.ts:622-646 | the five status counters add up to at most the total, and to the total when every status is one of the five; late deliveries are among the awaited ones |
| Routers.ConvertDate | server/routers.ts:282-287 | the conversion of one date field; what it keeps is stated by `Routers.ConvertDateKeepsTruthiness` |
| Routers.ConvertDateKeepsTruthiness | server/routers.ts:282-287 | converting a date does not change whether the merged or the written column counts as set |
| Routers.StatusUpdateConsistent | server/routers.ts:298-311 | the stored row has every sent field written and a date sent as `undefined` left as it was, with both statuses computed on the merged row; with no `undefined` date the stored row is the merged row, and its statuses are exactly what the rules give on it |
| Routers.ClearedDateKeptButStatusCleared | server/routers.ts:298-311 | a first verification date sent as `undefined` stays stored, while the stored statuses are the ones the rules give with it cleared |
| Routers.ClearedDateStatusMismatch | server/routers.ts:298-311 | a verified room without notes whose date is sent as `undefined` keeps the date but is stored PENDENTE, although the rules give VERIFICADA on the stored row |
| Records.SetAgreesWithSpread | server/routers.ts:298-311 | with no date sent as `undefined`, writing the update gives the same row as merging it |
| Routers.SentStatusesIgnored | server/routers.ts:298-311 | statuses sent by the client have no effect on the stored row |
| Routers.SecondVerificationSettles | server/routers.ts:282-305 | sending a second verification date (a date or a non-empty text) stores VERIFICADA |
| Routers.UpdatedRoomReturned | server/routers.ts:305-315 | with unique ids the update returns exactly the updated room, written and stamped |
| Routers.UpdateSalaStatusRoute | server/routers.ts:276-317 | "Sala not found", with nothing changed, exactly when no room has the id; otherwise the converted input and the recomputed statuses are written, a date sent as `undefined` is skipped, and the written row is returned |
| Routers.Enriched | server/routers.ts:227-232 | a new issue goes to the company of its discipline, starts PENDENTE and keeps its room, discipline and divergence |
| Routers.EnrichedThaIssue | server/routers.ts:227-232 | an issue of discipline "hid", in any letter case, goes to Thá |
| Routers.CreateApontamentoRoute | server/routers.ts:226-235 | exactly one enriched issue is inserted, although the insert is written twice |
| Routers.NumericLinkKeepsExclusive | server/routers.ts:360-368 | linking a numeric element id keeps ownership exclusive |
| Routers.LinkRoute | server/routers.ts:360-368 | the procedure writes the link the data layer specifies (null forwarded as "clear") and answers its result |
| Routers.UnlinkRoute | server/routers.ts:371-379 | the procedure writes the unlink of the id's text and answers its result |
| IfcFiles.Sanitize | server/ifcHandler.ts:35 | the replacement works on UTF-16 code units: the result holds only letters, digits, '.', '-' and '_'; its length is stated by `IfcFiles.SanitizeKeepsLength` |
| IfcFiles.SanitizeKeepsLength | server/ifcHandler.ts:35 | the sanitised name has as many characters as the name has UTF-16 code units, so its JavaScript length is kept |
| IfcFiles.AstralCharBecomesTwoUnderscores | server/ifcHandler.ts:35 | a character outside the Basic Multilingual Plane becomes "__", one '_' per code unit |
| IfcFiles.SanitizeSafe | server/ifcHandler.ts:35 | a sanitised name holds no '/', and sanitising it again changes nothing |
| IfcFiles.SanitizeKeepsSafeNames | server/ifcHandler.ts:35 | a name of safe characters only is kept as it is |
| IfcFiles.SanitizeAppend | server/ifcHandler.ts:35 | the replacement is character by character: sanitising two joined parts gives the two sanitised parts joined |
| IfcFiles.SanitizeBmpPerPosition | server/ifcHandler.ts:35 | for a name within the Basic Multilingual Plane, the length is kept and each position holds the original character when it is safe and '_' otherwise |
| IfcFiles.UniqueName | server/ifcHandler.ts:36 | the disk name is the timestamp's digits, '_', then the sanitised name |
| IfcFiles.UniqueNameIsPlain | server/ifcHandler.ts:36-37 | the disk name is never empty and never holds '/' |
| IfcFiles.UniqueNameTimestamp | server/ifcHandler.ts:36 | the leading digits of the disk name are the timestamp |
| IfcFiles.UniqueNamesDiffer | server/ifcHandler.ts:34-36 | uploads at different times get different disk names |
| IfcFiles.StoredPathFindsFile | server/ifcHandler.ts:50 | the base name of the stored path is the disk name, so deletion finds the upload's file |
| IfcFiles.HandleIfcUpload | server/ifcHandler.ts:35-63 | the file joins the upload directory under its unique name; one record with the sanitised name, stored path, building (null when empty) and size is appended; the new id and the same path are answered |
| IfcFiles.FindIfcFile | server/ifcHandler.ts:81-85 | the record found has the id; none is found exactly when no record has it |
| IfcFiles.DeleteIfcFile | server/ifcHandler.ts:73-121 | always true; a missing record changes nothing; otherwise the records with the id are deleted, and the file named by the stored path's base name is removed unless the disk refuses |
| IfcFiles.DeleteRemovesRecord | server/ifcHandler.ts:113 | after the delete no record has the id and every other record is kept |
| IfcFiles.UploadThenDeleteRemovesFile | server/ifcHandler.ts:50-100 | uploading a file and deleting its record leaves the directory without that file |
| Reports.JoinedOne | server/reportGenerator.ts:63-70 | the join pairs an issue only with rooms |
| Reports.JoinedCorrect | server/reportGenerator.ts:63-70 | an item is in the inner join exactly when it pairs an issue with a room of the issue's room name |
| Reports.JoinedOneCorrect | server/reportGenerator.ts:63-70 | the same for one issue |
| Ordering.SortByStable | server/reportGenerator.ts:345-350 | the sort is stable: the elements sharing a key come out in the order they went in |
| Reports.ReportRowsCorrect | server/reportGenerator.ts:72-100 | the report lists every item passing the filters, as often as it occurs, and nothing else, in ascending room number; items with the same room number keep their order |
| Reports.SentinelsFilterNothing | server/reportGenerator.ts:72-93 | with the filters at "Todas"/"Todos" and no room search, every joined item is listed |
| Reports.ImageSlot | server/reportGenerator.ts:150-175 | an image is drawn exactly when a URL is given and loads; a URL that fails reads "Erro imagem"; no URL reads the report's own no-image text |
| Reports.DivergenceReport | server/reportGenerator.ts:105-203 | a single message when nothing is listed; otherwise the cover, then one page per item, in order |
| Reports.PageLabel | server/reportGenerator.ts:261 | a page label has at least three characters |
| Reports.PageLabelReadsBack | server/reportGenerator.ts:261 | a page label is all digits and reads back as the page's position |
| Reports.PageLabelsDistinct | server/reportGenerator.ts:261 | no two pages share a label |
| Reports.AsBuiltPageOf | server/reportGenerator.ts:247-303 | each as-built page carries its position's label |
| Reports.AsBuiltPagesAt | server/reportGenerator.ts:247-303 | page `k` of the report is the labelled page of item `k` |
| Reports.AsBuiltRows | server/reportGenerator.ts:226-238 | the as-built items are exactly those of the building, all when none is given |
| Reports.AsBuiltReport | server/reportGenerator.ts:243-324 | a single message when nothing matches; otherwise one labelled page per item, in order, and no cover |
| Reports.YesNo | server/reportGenerator.ts:379-381 | the flag column's text; the release rule over it is stated by `Reports.MappingStatusFollowsRule` |
| Reports.ExportedSalasCorrect | server/reportGenerator.ts:339-350 | the export lists the building's rooms, each as often as it occurs, by ascending room number; rooms with the same number keep their table order |
| Reports.MappingSheet | server/reportGenerator.ts:372-384 | one sheet row per room, in order; each flag reads "Sim" exactly when it is set; a missing release status reads PENDENTE |
| Reports.MappingStatusFollowsRule | server/reportGenerator.ts:382 | for a release status written by the rule, the sheet shows LIBERADO exactly when all three checks are 1, and then all three read "Sim" |
| Viewer.PositiveIds | client/src/hooks/useIfcViewer.ts:150-153 | only positive numbers survive the parse |
| Viewer.ParseIds | client/src/hooks/useIfcViewer.ts:150-153 | the ids parsed from a room's list are positive |
| Viewer.IdTexts | client/src/hooks/useIfcViewer.ts:150-153 | each element id written as its decimal text |
| Viewer.ParseIdsOfStoredList | client/src/hooks/useIfcViewer.ts:150-153 | a list of positive ids stored by the link route parses back to exactly those ids |
| Viewer.ColorIndex | client/src/hooks/useIfcViewer.ts:147-157 | the position of a colour's group, the first one holding it, or the end |
| Viewer.ColorGroupsCorrect | client/src/hooks/useIfcViewer.ts:147-159 | one group per colour, a group exactly for each colour some linked room has, holding that colour's ids in room order |
| Viewer.DropStatusSubsets | client/src/hooks/useIfcViewer.ts:161-175 | exactly the nodes that are not status subsets are kept |
| Viewer.NewSubsets | client/src/hooks/useIfcViewer.ts:177-202 | every new node is a status subset |
| Viewer.NewSubsetsFromGroups | client/src/hooks/useIfcViewer.ts:177-202 | each new subset is that of a group whose creation did not fail |
| Viewer.NewSubsetsDistinct | client/src/hooks/useIfcViewer.ts:177-202 | groups of distinct colours give subsets of distinct colours |
| Viewer.RecolouredIdempotent | client/src/hooks/useIfcViewer.ts:161-202 | recolouring twice leaves the scene that one recolour gives: subsets never pile up |
| Viewer.OneSubsetPerColour | client/src/hooks/useIfcViewer.ts:177-202 | after a recolour no two status subsets share a colour |
| Viewer.SubsetOpacity | client/src/hooks/useIfcViewer.ts:180-187 | the pending grey is drawn at 30% whatever its letter case; every other colour at 70% |
| Viewer.LightsOnly | client/src/hooks/useIfcViewer.ts:362-368 | clearing for a new model keeps exactly the lights |
| Viewer.DropHighlights | client/src/hooks/useIfcViewer.ts:238-258 | exactly the nodes that are not highlights are kept |
| Viewer.RestyledScene | client/src/hooks/useIfcViewer.ts:214-236 | every node is restyled in place |
| Viewer.RestyleLastWins | client/src/hooks/useIfcViewer.ts:214-236 | the effect only changes materials, and restyling twice equals restyling with the last setting |
| Viewer.FirstOwner | client/src/hooks/useIfcViewer.ts:316-318 | the first room whose list names the element, or none when no room does |
| Viewer.NamesIsLinked | client/src/hooks/useIfcViewer.ts:316 | a room's list names an element exactly when its linked ids hold it |
| Viewer.PickSelection | client/src/hooks/useIfcViewer.ts:313-323 | in mapping mode the bare element "Objeto <id>"; otherwise a room that names the element whenever one does, else the element itself |
| Viewer.ClickBounds | client/src/hooks/useIfcViewer.ts:339-346 | a click moved less than 5 pixels on each axis; a move of at most 3 on each axis is always a click |
| Viewer.IfcViewerController.constructor | client/src/hooks/useIfcViewer.ts:9-37 | a fresh controller: no scene, no model, nothing selected, no busy flag, x-ray and mapping mode off |
| Viewer.IfcViewerController.Init | client/src/hooks/useIfcViewer.ts:43-102 | the scene holds its three lights; the loader is ready unless it failed to start |
| Viewer.IfcViewerController.BuildColorGroups | client/src/hooks/useIfcViewer.ts:147-159 | the `forEach` builds exactly the specified colour groups |
| Viewer.IfcViewerController.RemoveStatusSubsets | client/src/hooks/useIfcViewer.ts:161-175 | the traversal removes exactly the status subsets |
| Viewer.IfcViewerController.AddSubsets | client/src/hooks/useIfcViewer.ts:177-202 | the loop appends one subset per group whose creation succeeds |
| Viewer.IfcViewerController.ApplyColors | client/src/hooks/useIfcViewer.ts:137-206 | blocked, the scene is unchanged; otherwise it is recoloured from the current colours; the busy flag ends as it was on entry |
| Viewer.IfcViewerController.BeginLoad | client/src/hooks/useIfcViewer.ts:356-370 | a load starts exactly when the loader is ready and nothing is in progress; then the busy flag is taken, the model dropped and the scene cleared to its lights; otherwise nothing changes |
| Viewer.IfcViewerController.FinishLoad | client/src/hooks/useIfcViewer.ts:370-398 | a loaded model is added and coloured with a forced rebuild when colours exist; a failure changes nothing; the busy flag drops either way |
| Viewer.IfcViewerController.RecolourEffect | client/src/hooks/useIfcViewer.ts:208-212 | a loaded, idle viewer with colours is recoloured; otherwise nothing changes |
| Viewer.IfcViewerController.ReceiveRoomColors | client/src/hooks/useIfcViewer.ts:37-212 | new colours are kept and, on a loaded idle viewer, the scene is recoloured from them |
| Viewer.IfcViewerController.ClearSelectionHighlight | client/src/hooks/useIfcViewer.ts:238-266 | once a scene exists, highlights and the selection are gone; before, nothing changes |
| Viewer.IfcViewerController.MouseDown | client/src/hooks/useIfcViewer.ts:339 | a mouse-down on the canvas records its position |
| Viewer.IfcViewerController.MouseUp | client/src/hooks/useIfcViewer.ts:340-346 | a pick happens exactly after a recorded mouse-down less than 5 pixels away; the record is then reset |
| Viewer.IfcViewerController.HandleSelection | client/src/hooks/useIfcViewer.ts:268-331 | busy or not ready: nothing; a miss clears the highlight and the selection; a hit on an element replaces the highlight with one on it and selects as `PickSelection` says; a hit without a usable id changes nothing; when creating the highlight fails, the highlight and the selection stay cleared; when reading the properties the selection needs fails, the new highlight stays and the selection stays cleared |
| Viewer.NeedsPropertiesForUnownedElements | client/src/hooks/useIfcViewer.ts:313-323 | the element's properties are read exactly when, outside mapping mode, the selection is the bare element |
| Viewer.IfcViewerController.RefreshMaterials | client/src/hooks/useIfcViewer.ts:214-236 | every node is restyled for `xRay || mappingMode` |
| Viewer.IfcViewerController.SetXRay | client/src/hooks/useIfcViewer.ts:21-25 | the flag takes the value, and the scene is restyled only when the value changes |
| Viewer.IfcViewerController.SetMappingMode | client/src/hooks/useIfcViewer.ts:28-35 | the mode takes the value, and the scene is restyled only when the value changes |
| Viewer.IfcViewerController.SetSelected | client/src/hooks/useIfcViewer.ts:20 | the selection takes the value |
| ViewerPanel.Matching | client/src/components/ifc/IfcViewer.tsx:56-58 | the rooms whose name contains the term, ignoring case |
| ViewerPanel.MatchingIsSubsequence | client/src/components/ifc/IfcViewer.tsx:56-58 | the filter keeps table order |
| ViewerPanel.FilteredRooms | client/src/components/ifc/IfcViewer.tsx:55-60 | nothing before the rooms load; otherwise the first ten matching rooms, in order |
| ViewerPanel.FilteredRoomsCorrect | client/src/components/ifc/IfcViewer.tsx:55-60 | only matching rooms, in table order, and a matching room is left out only when ten are shown |
| ViewerPanel.SelectedId | client/src/components/ifc/IfcViewer.tsx:214 | a selected element sends its numeric id; a selected room sends its whole list, null when it has none |
| ViewerPanel.SelectedIdText | client/src/components/ifc/IfcViewer.tsx:213 | `String(...)` of that payload, "null" for none |
| ViewerPanel.OwnerOf | client/src/components/ifc/IfcViewer.tsx:213-215 | the first loaded room whose list names the selection, none when none does or nothing is loaded |
| ViewerPanel.FirstNaming | client/src/components/ifc/IfcViewer.tsx:232-234 | the first room whose list names the id |
| ViewerPanel.UnlinkRequest | client/src/components/ifc/IfcViewer.tsx:212-223 | an unlink of the selected id from its owner, and no call when no room owns it |
| ViewerPanel.ClearAllRequest | client/src/components/ifc/IfcViewer.tsx:231-238 | a null link to the owner, else to the selected room; never a call for a zero id or for a bare element without an owner |
| ViewerPanel.UnlinkFreesElement | client/src/components/ifc/IfcViewer.tsx:212-223 | unlinking a selected element from the room found leaves no room listing it |
| ViewerPanel.ClearAllFreesElement | client/src/components/ifc/IfcViewer.tsx:231-238 | clearing the room found for a selected element leaves no room listing it |
| ViewerPanel.LinkClaimsElement | client/src/components/ifc/IfcViewer.tsx:258-266 | linking a selected element to a room of the list leaves that room, and no other, listing it |
| ViewerPanel.MappingPanel.constructor | client/src/components/ifc/IfcViewer.tsx:27 | the search starts empty |
| ViewerPanel.MappingPanel.SetSearchTerm | client/src/components/ifc/IfcViewer.tsx:253-254 | the term takes the typed value |
| ViewerPanel.MappingPanel.ToggleMapping | client/src/components/ifc/IfcViewer.tsx:130-133 | the mode flips and the selection is dropped, so no info panel is shown |
| ViewerPanel.MappingPanel.CloseMapping | client/src/components/ifc/IfcViewer.tsx:187 | mapping mode ends, the selection is kept and the mapping panel hides |
| ViewerPanel.MappingPanel.OnLinkResult | client/src/components/ifc/IfcViewer.tsx:32-42 | on success the colours are refetched, mapping mode ends and the selection is dropped; on failure nothing changes |
| ViewerPanel.MappingPanel.OnUnlinkResult | client/src/components/ifc/IfcViewer.tsx:44-53 | on success the colours are refetched and the selection is dropped; mapping mode stays |
| ViewerPanel.MappingPanel.Unlink | client/src/components/ifc/IfcViewer.tsx:212-223 | the table loses the id from its owner and the panel resets when an owner exists and the payload is not null; otherwise nothing changes |
| ViewerPanel.MappingPanel.ClearAll | client/src/components/ifc/IfcViewer.tsx:231-238 | the room found is cleared and the panel resets, or nothing changes when no call is made |
| ViewerPanel.MappingPanel.LinkTo | client/src/components/ifc/IfcViewer.tsx:258-266 | the selected id is linked to the clicked room and the panel resets |
| DataHub.OptimisticStatus | client/src/components/dashboard/DataHubTab.tsx:61-67 | the client rule: REVISAR exactly with notes; VERIFICADA exactly without notes and with the first date; PENDENTE otherwise |
| DataHub.OptimisticStatusDiverges | client/src/components/dashboard/DataHubTab.tsx:61-67 | the client rule differs from the server rule exactly when the second date is set and the room has notes or no first date |
| DataHub.OptimisticStatusCounterexample | client/src/components/dashboard/DataHubTab.tsx:61-67 | with notes and a second date, the client shows REVISAR and the server stores VERIFICADA |
| DataHub.OptimisticRows | client/src/components/dashboard/DataHubTab.tsx:48-73 | only the rows with the updated id change, and they become the merged row, where a date sent as `undefined` is removed, with the client's statuses |
| DataHub.CorrectedOptimisticRows | client/src/components/dashboard/DataHubTab.tsx:48-73 | the same list, with the server's rules applied to the merged row |
| DataHub.StatusesByTruthiness | server/automationService.ts:7-52 | the rules depend on the dates only through whether they are set |
| DataHub.CorrectedOptimisticMatchesServer | client/src/components/dashboard/DataHubTab.tsx:61-67 | for every update, including one with a date sent as `undefined`, the corrected row shows exactly the statuses the server stores when the update reaches it as sent |
| DataHub.ClearingFirstDateShowsPending | client/src/components/dashboard/DataHubTab.tsx:48-73 | emptying the first date input (line 397 sends `undefined`) of a room without notes removes the date from the cached row and shows PENDENTE |
| DataHub.ClearedDateDivergesFromServer | client/src/components/dashboard/DataHubTab.tsx:48-73 | for a date sent as `undefined`, the cached row drops the date while the server keeps it; the statuses still agree |
| DataHub.ClearLostOverJson | client/src/components/dashboard/DataHubTab.tsx:48-73 | over a plain JSON body the emptied date never reaches the server: the stored row keeps it, with statuses that agree with it, and a room without notes or second date shows PENDENTE while it is stored VERIFICADA |
| DataHub.OptimisticMatchesServerWithoutSecondDate | client/src/components/dashboard/DataHubTab.tsx:61-67 | without a second date the row as written already matches the server |
| DataHub.SalasCache.constructor | client/src/components/dashboard/DataHubTab.tsx:35 | the cache holds what was fetched and is fresh |
| DataHub.SalasCache.OnMutate | client/src/components/dashboard/DataHubTab.tsx:40-76 | the snapshot is the old list; an absent list stays absent, otherwise the updated row is patched |
| DataHub.SalasCache.OnError | client/src/components/dashboard/DataHubTab.tsx:77-82 | a snapshot is put back; without one the cache is kept |
| DataHub.SalasCache.OnSettled | client/src/components/dashboard/DataHubTab.tsx:83-85 | the list is marked for refetch in every case |
| DataHub.SalasCache.FailedUpdate | client/src/components/dashboard/DataHubTab.tsx:40-85 | an update the server rejects leaves the list as before, marked for refetch |
| DataHub.SortedSalasCorrect | client/src/components/dashboard/DataHubTab.tsx:122-138 | the room table holds each matching room as often as it occurs and nothing else, by ascending number, ties by name, and rooms equal in both in list order |
| DataHub.SortedApontamentosCorrect | client/src/components/dashboard/DataHubTab.tsx:140-155 | the issue table holds the matching issues of the chosen company, newest first, ties by higher issue number |
| FieldReport.Dedup | client/src/components/dashboard/FieldReportTab.tsx:78 | the same values, each once |
| FieldReport.FloorsOf | client/src/components/dashboard/FieldReportTab.tsx:79 | the floors of the rooms; the floor list built from them is stated by `FieldReport.PavimentosCorrect` |
| FieldReport.PavimentosCorrect | client/src/components/dashboard/FieldReportTab.tsx:78-80 | the floor list holds each floor of the building's rooms once, nothing else, in increasing order |
| FieldReport.FilteredSalasCorrect | client/src/components/dashboard/FieldReportTab.tsx:82-85 | exactly the rooms on the building and floor, each as often as it occurs, in name order |
| FieldReport.SuccessCountAll | client/src/components/dashboard/FieldReportTab.tsx:108-126 | the number of successful sends equals the queue's length exactly when every send succeeded |
| FieldReport.Failures | client/src/components/dashboard/FieldReportTab.tsx:111-129 | the failed items are as many as the failed sends |
| FieldReport.FailuresExact | client/src/components/dashboard/FieldReportTab.tsx:111-129 | an item is kept exactly when its send failed |
| FieldReport.SendKeepingFailures | client/src/components/dashboard/FieldReportTab.tsx:111-129 | every queued request is sent, in queue order, and the items set aside are exactly those whose send failed, in order |
| FieldReport.SuccessesFirstAgree | client/src/components/dashboard/FieldReportTab.tsx:132 | when the successes all come first, dropping `successCount` items keeps exactly the failed ones |
| FieldReport.SyncDropsFailedItem | client/src/components/dashboard/FieldReportTab.tsx:132 | as written: with the first send failing and the second succeeding, the sent item stays queued and the failed one is lost |
| FieldReport.QueuedOf | client/src/components/dashboard/FieldReportTab.tsx:217-222 | the queued item; what the queue does with it is stated by `FieldReport.FieldReportForm.AddApontamento` and `FieldReport.FailuresExact` |
| FieldReport.UploadedUrl | client/src/components/dashboard/FieldReportTab.tsx:186-195 | the photo URL of a request; where it goes is stated by `FieldReport.FieldReportForm.AddApontamento` |
| FieldReport.FieldReportForm.constructor | client/src/components/dashboard/FieldReportTab.tsx:42-55 | an empty form and queue, online as the browser says |
| FieldReport.FieldReportForm.SelectEdificacao | client/src/components/dashboard/FieldReportTab.tsx:271-275 | picking a building forgets the floor and the room and keeps everything else |
| FieldReport.FieldReportForm.SelectPavimento | client/src/components/dashboard/FieldReportTab.tsx:286-289 | picking a floor forgets the room and keeps everything else |
| FieldReport.FieldReportForm.SelectSala | client/src/components/dashboard/FieldReportTab.tsx:309 | the room is selected |
| FieldReport.FieldReportForm.SetOnline | client/src/components/dashboard/FieldReportTab.tsx:88-92 | the online flag follows the browser's events |
| FieldReport.FieldReportForm.OnCreateSuccess | client/src/components/dashboard/FieldReportTab.tsx:61-67 | the text fields are cleared |
| FieldReport.FieldReportForm.AddApontamento | client/src/components/dashboard/FieldReportTab.tsx:177-232 | an incomplete form changes nothing; otherwise the request is sent when online, or appended to the queue when offline, and the fields and photos are cleared |
| FieldReport.FieldReportForm.SyncQueue | client/src/components/dashboard/FieldReportTab.tsx:104-141 | as written: every item is sent in order, and the queue keeps all but its first `successCount` items; once a send succeeds the mutation's success callback (lines 60-66) clears the discipline and divergence fields, otherwise they are kept |
| FieldReport.FieldReportForm.SyncQueueKeepingFailures | client/src/components/dashboard/FieldReportTab.tsx:104-141 | corrected: every item is sent in order, and the queue keeps exactly the items whose send failed; the text fields are cleared as in `SyncQueue` |
| Entregas.StatusLabel | client/src/components/dashboard/EntregasTab.tsx:28-34 | a known status shows its own badge; any other status shows "Aguardando" |
| Entregas.StatusLabelsDistinct | client/src/components/dashboard/EntregasTab.tsx:28-34 | known statuses have different badges |
| Entregas.FilteredEntregasCorrect | client/src/components/dashboard/EntregasTab.tsx:56-62 | a delivery is listed exactly when the search occurs in its name, company or discipline, ignoring case, and its building matches when one is selected |
| Entregas.EmptySearchShowsAll | client/src/components/dashboard/EntregasTab.tsx:56-62 | an empty search with no building lists every delivery |
| Entregas.IsAtrasadoAgreesWithStats | client/src/components/dashboard/EntregasTab.tsx:162 | for a stored due date, the list's late mark agrees with the late counter of the statistics |
| Entregas.OnlyAwaitedIsLate | client/src/components/dashboard/EntregasTab.tsx:162 | only an awaited delivery is marked late |
| Entregas.FormDefaults | client/src/components/dashboard/EntregasTab.tsx:480-491 | a new form starts awaited, as a report, due today, in the dashboard's building; an edited one takes the delivery's values with the same fallbacks |
| Entregas.Submit | client/src/components/dashboard/EntregasTab.tsx:493-499 | an empty receipt date is sent as null; the id and status as they are; no comment |
| Entregas.SubmitStoresReceiptDate | client/src/components/dashboard/EntregasTab.tsx:493-499 | a delivery created from the form has no receipt date exactly when the field was empty |
| Entregas.NewFormCreatesAwaitedReport | client/src/components/dashboard/EntregasTab.tsx:480-499 | a delivery created from a fresh form is awaited, a report, with no receipt date |
| Entregas.Resent | client/src/components/dashboard/EntregasTab.tsx:256-277 | the detail view re-sends the delivery with the chosen status and comment, its dates untouched |
| Entregas.UpdateStatusRequest | client/src/components/dashboard/EntregasTab.tsx:256-264 | an empty comment is not sent |
| Entregas.SendCommentRequest | client/src/components/dashboard/EntregasTab.tsx:266-277 | nothing is sent exactly when the comment is blank after trimming; otherwise the comment and the chosen status |
| Entregas.SentCommentIsLogged | client/src/components/dashboard/EntregasTab.tsx:266-277 | a comment sent for a delivery still in the table is logged as the last history line against it; once the delivery is gone the upsert is refused |

## Left out

- The Three.js and web-ifc machinery is left out: renderer, camera, controls, animation loop, resize handling and camera framing. The scene is a sequence of tagged nodes. Ray hits, the element's IFC name and the outcome of `loadAsync` are parameters. In room colouring, the colours whose `createSubset` fails are a parameter. In the selection, the caught failure is a parameter: the highlight fails or the properties fail. A failing `getExpressId` is a hit without an id.
- The SQL layer is not modelled: Drizzle, transactions, the `getDb` null paths and the "Database not available" throws. Tables are sequence fields of one `Database` object.
- The read-only chart queries of `server/db.ts` are not modelled (`getTopSalasImpactadas`, the per-week, per-discipline and per-building series, `getValidacaoIntegridade`, `deleteEntrega`), because none of them writes or feeds the viewer.
- The KPI percentages of `getKPIs` (db.ts:217-220) are left out: they are floating-point divisions.
- Dates and time zones are parameters: `new Date(text)` and dayjs parsing are the `parse` function, and the formatting is `format`. The noon suffix of `upsertEntrega` shows only as a text becoming a stored time.
- `Math.random()` issue numbers in the field report are not modelled, and `crypto.randomUUID()` is a parameter.
- `localStorage`, React rendering, toasts, the Excel download in the data hub and the PDF download links are not modelled.
- Reports: the pdfkit and ExcelJS drawing (fonts, coordinates, colours) is not modelled. Image fetching is the `loads` predicate. The issues and status sheets of the Excel export are not modelled; the room sheet is.
- The spreadsheet parsing in `processExcelFile` is not part of this model: its parsed rows are inputs to `Upload.HandleExcelUpload`. The delete fallback with `where 1 = 1` (uploadHandler.ts:31-34) ends in the same empty tables and is not told apart.
- The transport of an update to the server is not part of this model. A date sent as `undefined` reaches the server when the tRPC transformer keeps such keys, and it is lost when the body is plain JSON. `Routers.UpdateSalaStatusRoute` handles the update as it arrives, which covers both cases. `DataHub.ClearedDateDivergesFromServer` states the outcome when the key arrives. `DataHub.ClearLostOverJson` states it when the key is dropped.
- Case mapping covers ASCII and Latin-1 only. Both `localeCompare` and a `sort()` with no comparator are taken as code-point order. JavaScript's `sort()` compares UTF-16 code units, and `localeCompare` follows the locale's collation. The order differs for texts with characters outside the Basic Multilingual Plane, and for collation-specific orderings.
- React's stale closures and the effect dependencies beyond those modelled are not captured. For example, `loadIfcModel` is re-created when the colours change.
- `Viewer.PositiveIds` and `Viewer.ParseIds`: their own contracts only bound and sign the result. The exact parse is stated for stored lists by `Viewer.ParseIdsOfStoredList`.
- `Viewer.NumberOf`, `Viewer.PositiveIds` and `Viewer.ParseIds`: only plain decimal-digit texts are parsed. The other texts JavaScript's `Number` accepts (a sign, a fraction, an exponent, a 0x/0o/0b prefix, "Infinity") read as NaN here, whereas the viewer would colour them. The link route can store such texts, because it accepts any string.
- `Routers.IdValue` holds integer numbers only; the non-integer numbers `z.number()` accepts are not modelled.
- `Backend.UpdateEntregas` and `Backend.PatchRows`: their own contracts only keep the rows and their ids. What the update writes is stated for rooms by `Routers.UpdatedRoomReturned` and `Routers.StatusUpdateConsistent`. For deliveries it is stated only through `Backend.Database.UpsertEntrega`.
- `Stats.CountVerified`, `Stats.CountReleased`, `Stats.CountStatus`, `Stats.CountLate` and `Stats.IssueCount`: their own contracts only bound the count. Their meaning is stated by `Stats.VerifiedKpiMatchesRule`, `Stats.ReleasedKpiMatchesRule`, `Stats.EntregasStatsConsistent` and `Stats.IssueCountPositive`.
- FieldReportTab.tsx:70 says, on a failed create, that the item went to the offline queue, but nothing is queued. The model queues only when offline, as the code does.

## Findings

| source | as written | input that shows it | evidently intended | confidence | as-written member | corrected member |
|---|---|---|---|---|---|---|
| client/src/components/dashboard/FieldReportTab.tsx:132 | after the sync loop the queue keeps `offlineQueue.slice(successCount)`, dropping the first `successCount` items whatever their outcome | a queue [a, b] where a's send fails and b's succeeds: b stays queued and is sent again, a is lost | keep exactly the items whose send failed | not executed | FieldReport.SyncDropsFailedItem | FieldReport.FieldReportForm.SyncQueueKeepingFailures |
| server/db.ts:108-133 | the id is compared with the trimmed entries of the other rooms but stored untrimmed in the target | room 1 lists "7" and room 2 has none; linking " 7" to room 2 leaves both rooms listing 7 | every link keeps each element owned by at most one room | not executed | Links.UntrimmedLinkBreaksExclusive | Links.NormalisedLinkPreservesExclusive |
| client/src/components/dashboard/DataHubTab.tsx:61-67 | the optimistic status ignores the second verification date | a room with notes "fissura" and a second verification date: the client shows REVISAR, the server stores VERIFICADA | the optimistic row shows what the server will store | not executed | DataHub.OptimisticStatusDiverges | DataHub.CorrectedOptimisticMatchesServer |
