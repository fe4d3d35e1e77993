# astrologbook core, in Dafny

A model of the core of astrologbook, an astrophotography log made of two parts.

The first part is a Python command-line tool:
- it keeps a JSON manifest of the FITS files in a directory (`update`);
- it classifies an object's identifiers into catalog references and a common name;
- it looks objects up in Simbad through a local cache (`lookup`).

The second part is a Next.js web interface whose helpers hold most of the logic:
- the CSV/JSON import of the observing to-do list;
- times and coordinates, end times and schedule conflicts;
- the to-do list's sorting, filtering and CSV export;
- the data-sync hook and the tag selector;
- the SQL query builder, the image-header reader and the ideal-window shading of the altitude chart;
- the database backups, the schedule API's "one active schedule" rule, the migration runner and the connection factory;
- the to-do synchronisation with the database.

Each source file becomes one module:

| module | source |
|---|---|
| `AlogModels` | `alog/models.py` |
| `PathUtils` | `utils.py` |
| `CatalogRefs`, `CommonName`, `Ingestion` | `manifest.py` |
| `Lookup` | `cli.py` |
| `ImportDialog` | `ui/src/components/import-dialog.tsx` |
| `AstronomyUtils` | `ui/src/lib/astronomy-utils.tsx` |
| `Schedule` | `ui/src/components/edit-schedule-item-dialog.tsx` and the identical helpers of `ui/src/app/plan/page.tsx` |
| `PlanPage` | `ui/src/app/plan/page.tsx` |
| `TodoList` | `ui/src/components/astronomy-todo-list.tsx` |
| `DataSync` | `ui/src/components/use-data-sync.tsx` |
| `TagSelector` | `ui/src/components/tag-selector.tsx` |
| `QueryBuilder` | `ui/src/lib/database/query-builder.ts` |
| `ImageHeader` | `ui/src/lib/image-processing.ts` and its copy in `ui/src/lib/utils.ts` |
| `AltitudeChart` | `ui/src/components/altitude-chart.tsx` |
| `Backup` | `ui/src/lib/database/backup.ts` |
| `Schedules` | `ui/src/app/api/schedules/route.ts` and `ui/src/app/api/schedules/active/route.ts` |
| `Models` | `ui/src/lib/models.ts` |
| `Migrations` | `ui/src/lib/database/migrations.ts` |
| `Factory` | `ui/src/lib/database/factory.ts` |
| `Db` | `ui/src/lib/db.ts` |

The shared modules are:
- `Wrappers`: `Option` and `Result`.
- `Text`: string helpers with the JavaScript and Python meanings: `split`, `join`, ASCII lower-casing, decimal numbers as `String`/`str` print them, code-point order and `x || fallback`. It also holds `trim`/`strip` and `\s`, each with the full whitespace set of its language: JavaScript adds U+FEFF, Python adds U+001C..U+001F and U+0085. Likewise `\d` is `[0-9]` in JavaScript but every Unicode decimal digit (category Nd) in a Python `str` pattern.
- `Seqs`: filter, take and subsequence.
- `Sorting`: a stable insertion sort by a key under a total preorder, with its sortedness and permutation lemmas.

Where a source file changes state in place, the model is a class whose methods carry `modifies` clauses and loop invariants:
- the manifest store;
- the lookup cache;
- the to-do store of the data-sync hook;
- the tag selector;
- the query builder;
- the connection factory;
- the migration runner;
- the schedule table;
- the to-do table;
- the backup folder;
- the sort control of the to-do list.

Pure helpers are functions with lemmas. I/O is an input to the model:
- the file system, Simbad, SQLite and the server replies;
- the clock and random ids;
- trigonometry and `parseFloat`.

The end-time and time-format helpers appear three times in the source, as identical code:
- `edit-schedule-item-dialog.tsx:91-98`;
- `edit-schedule-item-dialog.tsx:150-163`;
- `plan/page.tsx:126-139`.

They are modelled once, in `Schedule`. The rows below cite each copy through the lemma about it.

## Model

| member | source | states |
|---|---|---|
| AlogModels.NewFileDescription | alog/models.py:13-27 | a file description needs only its pathname and hash; the instrument defaults to "", every number to 0, and the id and solution are absent |
| AlogModels.NewManifest | alog/models.py:30-31 | a manifest built without arguments lists no files |
| AlogModels.NewSession | alog/models.py:34-39 | a session needs only its start date; its name, description, commentary and manifest are absent |
| Ingestion.TotalExposure | manifest.py:36-48 | the total exposure is TOTALEXP when that keyword is present and non-zero, and EXPTIME times STACKCNT otherwise, a missing keyword counting as 0 |
| Ingestion.Describe | manifest.py:36-73 | a stored description keeps only the relative path, the digest and the solver's answer, has no id, and takes the total-exposure fallback; the instrument, RA, Dec, STACKCNT, EXPTIME, NAXIS1 and NAXIS2 keywords are stored, each as "" or 0 when missing |
| Ingestion.StepExtends | manifest.py:323-348 | one pass of the loop keeps the list as a prefix, and appends exactly one entry iff the file is not hidden, not under /lights/, not already listed by relative path, and its description succeeds |
| Ingestion.IngestExtends | manifest.py:323-348 | the loop only appends: the loaded entries stay, in place, and at most one entry is added per file walked |
| Ingestion.IngestKeepsUnique | manifest.py:331-335 | because listed paths are skipped, no relative path enters the manifest twice |
| Ingestion.IngestPathnames | manifest.py:321-348 | whatever order the shuffle produces, the paths afterwards are the loaded ones plus those of the eligible files whose description succeeds |
| Ingestion.IngestCovers | manifest.py:323-348 | every eligible walked file ends up in the manifest unless describing it raised |
| Ingestion.IngestNothingNew | manifest.py:324-345 | a pass in which every file is hidden, under /lights/, already listed or failing leaves the manifest unchanged |
| Ingestion.RerunAppendsNothing | manifest.py:331-335 | rerunning over the same files, in any order, or over any subset of them, appends nothing |
| Ingestion.AppendedAreDescribed | manifest.py:337-347 | every appended entry is the description of an eligible, previously unlisted walked file whose description succeeded |
| Ingestion.ManifestStore.constructor | manifest.py:310 | the manifest file starts with the given content and no saves recorded |
| Ingestion.ManifestStore.Save | manifest.py:318-319 | saving overwrites the file with the manifest and records the save |
| Ingestion.CheckpointSavesArePrefixes | manifest.py:347-353 | the k-th checkpoint holds the loaded entries and the first 10·k appended ones |
| Ingestion.Load | manifest.py:312-316 | a missing manifest file loads as an empty manifest, a stored one as itself, and text that does not validate fails |
| Ingestion.UpdateAsWritten | manifest.py:321-322 | as written, `update` always fails at the shuffle, before any file is described or saved |
| Ingestion.AsWrittenAddsNothing | manifest.py:322 | a single new describable file is enough to tell the written command from the intended one: the intended one adds it, the written one fails |
| Ingestion.Admit | manifest.py:323-348 | the loop body for one file computes the pass: it appends the file's description when it is admitted and described, and otherwise leaves the list alone |
| Ingestion.MaybeCheckpoint | manifest.py:350-353 | the manifest is saved exactly when the count of appended entries reaches a multiple of ten, holding the loaded entries and that many appended ones |
| Ingestion.CheckpointedIngest | manifest.py:323-356 | the loop produces the ingested list; while fewer than ten entries were appended the file is untouched, and afterwards it holds the loaded entries and the first count − count mod 10 appended ones |
| Ingestion.Update | manifest.py:305-360 | an unreadable manifest stops the command before anything is written; otherwise the loaded (or empty) manifest is extended by the loop over a permutation of the walk and saved once more at the end |
| PathUtils.Basename | utils.py:5 | the basename holds no separator and is no longer than the path |
| PathUtils.BasenameIsLastComponent | utils.py:5 | the basename is the tail of the path after its last separator |
| PathUtils.HiddenIffLastComponent | utils.py:5 | `dir/name` is hidden iff `name` starts with a dot |
| PathUtils.InsideHiddenDirectory | utils.py:5 | a file inside a hidden directory is not itself hidden |
| PathUtils.TrailingSeparatorNotHidden | utils.py:5 | a path ending in a separator has an empty basename and is not hidden, as text or as bytes |
| PathUtils.TextAndBytesAgree | utils.py:5 | the text and byte forms of the same ASCII path agree on whether it is hidden |
| CatalogRefs.LeadingDigits | manifest.py:167-183 | the greedy `\d+`: the longest run of Unicode decimal digits at the start of the text |
| CatalogRefs.MatchRuleShape | manifest.py:195-205 | a rule matches only when the name starts with its prefix, ignoring case; a one-part id is one run of Unicode decimal digits, and the ESO id is two such runs joined by "-" |
| CatalogRefs.MessierExamples | manifest.py:167 | "M 31" is Messier 31, and "NGC224" is no Messier identifier |
| CatalogRefs.MessierArabicIndic | manifest.py:167 | "M ٣١", written with Arabic-Indic digits, is Messier "٣١" |
| CatalogRefs.EsoExamples | manifest.py:179 | "ESO 123-16" has the id "123-16", and "ESO 123" is no ESO identifier |
| CatalogRefs.FlattenPairs | manifest.py:210-218 | the flattened dictionary lists exactly its (catalog, id) pairs |
| CatalogRefs.FlattenShape | manifest.py:214-218 | every entry's designation is its catalog, a space and its id |
| CatalogRefs.FlattenDistinct | manifest.py:207-218 | with ids kept without repeats per catalog, no pair is listed twice |
| CatalogRefs.RecordId | manifest.py:198-208 | `setdefault` plus append-unless-listed adds exactly the pair (catalog, id) and keeps ids distinct |
| CatalogRefs.RecordRule | manifest.py:196-208 | trying one rule on one name records exactly what that rule finds |
| CatalogRefs.RecordMatches | manifest.py:195-208 | trying the whole table on one name records exactly what the rules find |
| CatalogRefs.FlattenDict | manifest.py:210-218 | the conversion loop lists each catalog's ids, catalogs in insertion order |
| CatalogRefs.ExtractCatalogReferences | manifest.py:160-220 | `None` names are skipped, others stripped; the entries are exactly the (catalog, id) pairs the rules find (ids of Unicode decimal digits), each listed once, with designation "catalog id" |
| CommonName.FirstTag | manifest.py:108-111 | `re.search` finds the leftmost position where `NAME\s+` (or `ASTERISM\s+`) matches, `\s` being Python's Unicode whitespace |
| CommonName.RestOfLine | manifest.py:108-111 | `(.*)` captures up to, and not including, the first line break |
| CommonName.TaggedMatchAtStart | manifest.py:108 | "NAME Orion Nebula"-style identifiers yield the rest of their first line |
| CommonName.NameRules | manifest.py:103-118 | the table has five rules, ranked 1 to 5 in order |
| CommonName.CandidatesAccepted | manifest.py:135-149 | every candidate kept passes the three filters: no designation, at least three characters, not all digits, where a digit is any Unicode decimal digit |
| CommonName.ArabicIndicNumberRejected | manifest.py:146 | a capture of Arabic-Indic digits such as "١٢٣٤" is rejected as a number |
| CommonName.SortedHeadIsFirstBest | manifest.py:152-155 | the head of the stable sort by priority is the first candidate with the smallest priority |
| CommonName.TryRule | manifest.py:131-149 | one rule's stripped capture is kept exactly when it passes the filters, with Python's Unicode `\s` and `\d` |
| CommonName.CollectForName | manifest.py:130-149 | one identifier contributes its accepted captures in rule order |
| CommonName.ExtractCommonName | manifest.py:100-157 | the common name is absent iff no candidate survives; otherwise it passed the filters (with Unicode digits) and is the earliest candidate of smallest priority number |
| Lookup.SizeRuleIsFunctional | cli.py:102-143 | the size rule's branches exclude one another: a row determines a single size |
| Lookup.DeriveSize | cli.py:102-143 | the size follows the precedence: a non-blank dimensions string, else a positive major axis (minor defaulting to major, angle to 0, text in arcminutes from 60 up and showing the angle), else a point source for stars, else unknown |
| Lookup.DistanceOf | cli.py:146-152 | a distance is present iff the parallax is present and non-zero; parsecs times parallax is 1000 and light years are parsecs times 3.26156 |
| Lookup.MotionOf | cli.py:162-166 | the proper motion is present iff both components are real values (neither null nor masked) and then holds them |
| Lookup.AsPresent | cli.py:182 | the names given to the extractors are all present, in order |
| Lookup.AltNames | cli.py:172-179 | the alternative identifiers are the returned list when it is non-empty, and none otherwise |
| Lookup.BuildRecord | cli.py:90-189 | the record copies the row's fields, follows the size, distance and proper-motion rules, and holds alternative names, catalogs and a common name only when each is non-empty, computed over the main id followed by the alternative ids |
| Lookup.ObjectCache.constructor | cli.py:27-42 | the cache table starts empty |
| Lookup.ObjectCache.Put | cli.py:196-199 | INSERT OR REPLACE: the last write for a key wins and other keys are untouched |
| Lookup.Lookup | cli.py:12-214 | with caching on and the cache readable, an exact hit answers with the stored record and no query; otherwise an error or an empty result caches nothing, and a resolved record is written under the exact query string only when caching is on and the write succeeds |
| ImportDialog.Fields | ui/src/components/import-dialog.tsx:264-288 | the fields of a line always number at least one |
| ImportDialog.FieldCount | ui/src/components/import-dialog.tsx:264-288 | a line has exactly one more field than it has commas outside quotes |
| ImportDialog.ParseCsvLine | ui/src/components/import-dialog.tsx:259-289 | one pass over the line yields the fields of the line: a doubled quote inside quotes gives one quote, other quotes toggle the state and are dropped, a comma outside quotes ends a field, and the last field is always pushed |
| ImportDialog.NoQuotesIsSplit | ui/src/components/import-dialog.tsx:264-288 | a line without quote characters is split at every comma |
| ImportDialog.EscapedThenClose | ui/src/components/import-dialog.tsx:267-275 | inside quotes, text whose quotes are doubled, followed by the closing quote, reads back as that text |
| ImportDialog.QuotedField | ui/src/components/import-dialog.tsx:259-289 | a field wrapped in quotes with its inner quotes doubled reads back as the original text, whatever commas or quotes it holds |
| ImportDialog.QuotedLineRoundTrip | ui/src/components/import-dialog.tsx:259-289 | a line of such quoted fields joined by commas parses back to exactly the fields |
| ImportDialog.NonBlankLines | ui/src/components/import-dialog.tsx:189 | the kept lines are the non-blank ones |
| ImportDialog.FindFirst | ui/src/components/import-dialog.tsx:199-215 | findIndex: -1 iff no header matches, otherwise the first matching index |
| ImportDialog.Cell | ui/src/components/import-dialog.tsx:227-229 | a cell is present iff its column is within the row, and is then trimmed |
| ImportDialog.DateCell | ui/src/components/import-dialog.tsx:241-249 | a blank or missing date cell gives no date; otherwise the untrimmed cell is converted, giving its ISO text, or the RangeError when it is not a valid date |
| ImportDialog.ReadRow | ui/src/components/import-dialog.tsx:221-252 | a blank line or a skipped row adds nothing; a kept row with a bad date throws; otherwise the row's object is added |
| ImportDialog.KeptOutcome | ui/src/components/import-dialog.tsx:221-252 | one data line throws, with "Invalid time value", exactly when it is a kept row with a bad date; otherwise it gives at most one well-formed object |
| ImportDialog.ReadRows | ui/src/components/import-dialog.tsx:220-253 | the row loop keeps the objects of the kept rows, in order, and stops at the first line that throws |
| ImportDialog.RowsFailureStays | ui/src/components/import-dialog.tsx:220-253 | once a line has thrown, the later lines do not change the outcome |
| ImportDialog.RowsFailIff | ui/src/components/import-dialog.tsx:220-253 | the data lines throw exactly when one of them is a kept row with a bad date, and then with the RangeError's message |
| ImportDialog.RowsWellFormed | ui/src/components/import-dialog.tsx:220-253 | data lines that do not throw give no more objects than lines, each well formed |
| ImportDialog.ParseCsvData | ui/src/components/import-dialog.tsx:183-256 | the reader computes the CSV import, including the RangeError of a bad date; on success it yields fewer objects than lines, each with a trimmed, non-blank name, RA and Dec |
| ImportDialog.ParseCsvFailures | ui/src/components/import-dialog.tsx:184-253 | a CSV import fails exactly on blank input, on fewer than two non-blank lines, when the header lacks a name, RA or Dec column, or when a kept data row has a date cell that is not a valid date |
| ImportDialog.RowKeptIff | ui/src/components/import-dialog.tsx:225-231 | a data row is kept exactly when it has at least three fields and non-blank name, RA and Dec |
| ImportDialog.RowObjectWellFormed | ui/src/components/import-dialog.tsx:233-251 | a kept row's object has its trimmed name, RA and Dec; magnitude, size and type are their trimmed cells, or "N/A", "N/A" and "Unknown" when blank or missing; completed is true iff the trimmed cell is "yes" ignoring case; each date is the ISO text of a non-blank cell that reads, and is absent otherwise; goal time and notes are present iff their cells are not blank |
| ImportDialog.MixedCaseHeader | ui/src/components/import-dialog.tsx:199-201 | header matching ignores case: "Name", "RA" and "Dec" are the required columns |
| ImportDialog.ItemObject | ui/src/components/import-dialog.tsx:165-178 | a JSON item keeps its name, RA, Dec and any existing id |
| ImportDialog.ItemObjects | ui/src/components/import-dialog.tsx:159-179 | the import succeeds iff every item has a name, RA and Dec, giving one object per item; otherwise the error names the first incomplete item |
| ImportDialog.ParseJson | ui/src/components/import-dialog.tsx:147-180 | blank text, malformed JSON or a non-array fail; otherwise the items' objects, one per item, unless some item is incomplete |
| ImportDialog.ProcessImport | ui/src/components/import-dialog.tsx:90-130 | a successful import is never empty; on the JSON and CSV tabs it succeeds iff the reader succeeds with at least one object; the file tab without a file fails |
| ImportDialog.HandleFileUpload | ui/src/components/import-dialog.tsx:58-87 | a file is accepted iff it is at most 5 MB and named .json or .csv, with its kind taken from the extension and no error; a rejected file always shows an error |
| AstronomyUtils.DigitRun | ui/src/lib/astronomy-utils.tsx:18 | the greedy `\d+`: the digits at the start of the text, stopping at the first non-digit |
| AstronomyUtils.SearchCaptures | ui/src/lib/astronomy-utils.tsx:18-34 | a successful match yields one value per capture group of its pattern |
| AstronomyUtils.ParseCoordinates | ui/src/lib/astronomy-utils.tsx:15-43 | the coordinates are read iff both the RA pattern and the Dec pattern (with the literal "Â°") match |
| AstronomyUtils.DecDegreesSign | ui/src/lib/astronomy-utils.tsx:31-36 | the declination takes the sign of its sign character |
| AstronomyUtils.MatchPrint | ui/src/lib/astronomy-utils.tsx:18-28 | text printed in the shape of a pattern matches it and captures the printed values |
| AstronomyUtils.RaRoundTrip | ui/src/lib/astronomy-utils.tsx:18-23 | a right ascension written "HHh MMm SSs" reads back as the same hours, minutes and seconds |
| AstronomyUtils.DecRoundTrip | ui/src/lib/astronomy-utils.tsx:28-34 | a declination written with a sign and "Â°", "'" and '"' reads back as the same sign, degrees, minutes and seconds |
| AstronomyUtils.CoordinatesRoundTrip | ui/src/lib/astronomy-utils.tsx:15-43 | written coordinates convert to (h + m/60 + s/3600)·15 degrees of RA and a signed (d + m/60 + s/3600) of Dec |
| AstronomyUtils.PlainDegreeSignRejected | ui/src/lib/astronomy-utils.tsx:28-29 | a declination written with a plain degree sign is not recognised |
| AstronomyUtils.NoDecMatch | ui/src/lib/astronomy-utils.tsx:28-29 | text without a "+" or "-" never matches the declination pattern |
| AstronomyUtils.ParseTime | ui/src/lib/astronomy-utils.tsx:169-182 | empty text reads as nothing, and a time read has hours at most 23 and minutes at most 59 |
| AstronomyUtils.ParseTimeShape | ui/src/lib/astronomy-utils.tsx:169-182 | every text that reads is one or two hour digits, a colon and two minute digits, and reads as their values |
| AstronomyUtils.ParseTimeOfPieces | ui/src/lib/astronomy-utils.tsx:169-182 | text of the shape `^(\d{1,2}):(\d{2})$` reads as its two numbers exactly when they are in range, and text of any other shape reads as nothing |
| AstronomyUtils.ParseFormatClock | ui/src/lib/astronomy-utils.tsx:169-182 | every valid time written "HH:MM" reads back as itself |
| AstronomyUtils.CompareFollowsRank | ui/src/lib/astronomy-utils.tsx:186-213 | the comparison orders valid times evening-to-morning (hours below 12 shifted by 24, then minutes), then unreadable times, then empty ones |
| AstronomyUtils.CompareAntisymmetric | ui/src/lib/astronomy-utils.tsx:186-213 | swapping the arguments negates the comparison |
| AstronomyUtils.CompareTransitive | ui/src/lib/astronomy-utils.tsx:186-213 | "compares at most 0" is transitive, so the comparison can drive a sort |
| AstronomyUtils.EveningBeforeMorning | ui/src/lib/astronomy-utils.tsx:188-212 | "23:00" sorts before "01:00", and empty or invalid times sort after valid ones |
| AstronomyUtils.FirstHighestUnique | ui/src/lib/astronomy-utils.tsx:131-143 | there is only one first highest point |
| AstronomyUtils.MaxAltitudeTime | ui/src/lib/astronomy-utils.tsx:131-143 | no time iff the curve is empty; otherwise the time of the first point of maximal altitude |
| AstronomyUtils.IdealPoints | ui/src/lib/astronomy-utils.tsx:147 | filtering keeps at most as many points as the curve has |
| AstronomyUtils.IdealPointsEnds | ui/src/lib/astronomy-utils.tsx:147-156 | the ideal points are none exactly when no point is ideal; otherwise their ends are the first and last ideal points |
| AstronomyUtils.IdealWindow | ui/src/lib/astronomy-utils.tsx:146-157 | both ends are absent iff no point is ideal; otherwise they are the times of the first and last ideal points |
| AstronomyUtils.SectorsCover | ui/src/lib/astronomy-utils.tsx:263-281 | every azimuth in [0, 360) lies in some sector, and nothing else does |
| AstronomyUtils.SectorsDisjoint | ui/src/lib/astronomy-utils.tsx:263-281 | no azimuth lies in two sectors |
| AstronomyUtils.CompassDirection | ui/src/lib/astronomy-utils.tsx:261-292 | the name of the sector with min ≤ az < max for an azimuth in [0, 360), and "N" otherwise |
| Schedule.NumberOf | ui/src/components/edit-schedule-item-dialog.tsx:158 | `Number` of a piece of digits is its decimal value, and a negative result comes only from a minus sign |
| Schedule.NumberOfIntToString | ui/src/components/edit-schedule-item-dialog.tsx:158 | `Number` reads back every integer as `String` prints it, negative ones included |
| Schedule.NumberSpacedAndSigned | ui/src/components/edit-schedule-item-dialog.tsx:158 | whitespace around a piece is ignored and a sign is read: " 7" is 7 and "-1" is -1 |
| Schedule.NumberNaN | ui/src/components/edit-schedule-item-dialog.tsx:158 | "7a" and a lone "-" are NaN |
| Schedule.EndTime | ui/src/components/edit-schedule-item-dialog.tsx:156-163 | the end time is empty exactly when the start is empty |
| Schedule.EndText | ui/src/components/edit-schedule-item-dialog.tsx:158-162 | a start that has pieces always gives a non-empty end text (NaN pieces print "NaN") |
| Schedule.CarryIsModuloDay | ui/src/components/edit-schedule-item-dialog.tsx:91-98 | the copy inside the conflict check does the same carry arithmetic: minutes (m + d) mod 60 and hours (h + (m + d) div 60) mod 24, which is adding d minutes modulo a day |
| Schedule.EndTimeOfValid | ui/src/app/plan/page.tsx:132-139 | for a valid start and a non-negative duration, the end time is a valid time: the start moved on by the duration around a 24-hour clock |
| Schedule.EndTextValid | ui/src/components/edit-schedule-item-dialog.tsx:159-162 | valid hours and minutes and a non-negative duration give a valid time, (h·60 + m + d) mod 1440 minutes after midnight |
| Schedule.FormatTime | ui/src/components/edit-schedule-item-dialog.tsx:150-154 | an empty time formats as empty; a non-empty time without a colon makes `padStart` throw; otherwise both pieces are padded to two characters |
| Schedule.FormatTimeOfValid | ui/src/app/plan/page.tsx:126-130 | formatting a valid time writes it with two-digit hours, and is identity on "HH:MM" |
| Schedule.GetScheduleConflicts | ui/src/components/edit-schedule-item-dialog.tsx:87-119 | no conflicts without an active schedule, a start or an item; otherwise the schedule's items that are not the edited one and whose slot overlaps, in schedule order |
| Schedule.ConflictsAreOverlappingOthers | ui/src/components/edit-schedule-item-dialog.tsx:102-116 | the conflicts are a sub-list of the schedule; an item is among them iff it is not the edited item and one of the three overlap clauses holds |
| Schedule.MidnightOverlapMissed | ui/src/components/edit-schedule-item-dialog.tsx:109-113 | string comparison misses slots that cross midnight: 23:30 for 30 minutes is not reported against 23:00 for 2 hours |
| Schedule.HandleSave | ui/src/components/edit-schedule-item-dialog.tsx:62-74 | nothing is saved without an item, with a blank name or without a start; otherwise the item keeps every other field and takes the trimmed name, the start and the duration |
| PlanPage.NewItem | ui/src/app/plan/page.tsx:97-106 | a new item takes the display name (else the name), and defaults RA and Dec to "0" and magnitude to "N/A" when the metadata is missing |
| PlanPage.AddToSchedule | ui/src/app/plan/page.tsx:91-111 | without an object or a start the schedule is unchanged; otherwise it is the old items plus the new one, sorted by start time |
| PlanPage.AddToScheduleSorted | ui/src/app/plan/page.tsx:108 | after an add the schedule is in start-time order |
| PlanPage.AddToSortedSchedule | ui/src/app/plan/page.tsx:108 | adding to an ordered schedule an item that starts no earlier than any other appends it |
| PlanPage.RemoveFromScheduleSpec | ui/src/app/plan/page.tsx:113-116 | removal drops exactly the items with that id, keeps the others in order, and changes nothing for an unknown id |
| PlanPage.RecommendedObjects | ui/src/app/plan/page.tsx:118-124 | at most ten recommendations |
| PlanPage.RecommendedObjectsSpec | ui/src/app/plan/page.tsx:120-123 | every recommendation is one of the objects with a magnitude that reads below 8, and the list is in ascending magnitude |
| PlanPage.FewBrightAllRecommended | ui/src/app/plan/page.tsx:121-123 | with ten or fewer bright objects, all of them are recommended |
| PlanPage.BrightOf | ui/src/app/plan/page.tsx:121 | the bright candidates are exactly the objects with a magnitude that reads below 8 |
| PlanPage.RecommendedAreBrightest | ui/src/app/plan/page.tsx:118-124 | the recommendations are the ten brightest: min(10, number of bright objects) of them, drawn from the bright ones, and no bright object left out is brighter than a recommended one |
| Schedule.EndTextMidnight | ui/src/components/edit-schedule-item-dialog.tsx:156-163 | 23:30 plus 30 minutes ends at "00:00": the hour wraps past midnight |
| Schedule.EndTextOneAm | ui/src/components/edit-schedule-item-dialog.tsx:156-163 | 23:00 plus 120 minutes ends at "01:00" |
| TodoList.NextSort | ui/src/components/astronomy-todo-list.tsx:330-346 | a click keeps the field and direction both set or both unset |
| TodoList.SortControl.constructor | ui/src/components/astronomy-todo-list.tsx:330-346 | the list starts unsorted |
| TodoList.SortControl.HandleSort | ui/src/components/astronomy-todo-list.tsx:330-346 | a click on a column moves the sort state by the transition |
| TodoList.SortCycle | ui/src/components/astronomy-todo-list.tsx:330-346 | three clicks on a field not currently sorted go ascending, descending and back to unsorted, clearing the field; a click on another field always starts ascending |
| TodoList.ToggleType | ui/src/components/astronomy-todo-list.tsx:349-357 | the type is selected afterwards iff it was not before, and every other type keeps its selection |
| TodoList.ToggleTypeTwice | ui/src/components/astronomy-todo-list.tsx:349-357 | toggling a type twice restores the selection, to the very list when the type was not selected |
| TodoList.FilteredSpec | ui/src/components/astronomy-todo-list.tsx:465-480 | the filtered list keeps the list's order and holds exactly the objects the tab filter (all, pending, flagged, completed; an unknown tab keeps all) and, when some type is selected, the type filter ("Unknown" for none) pass |
| TodoList.MissingTimesLast | ui/src/components/astronomy-todo-list.tsx:517-533 | for the goal and highest-altitude times, an object with a time comes before one without, in both directions |
| TodoList.DescendingReversesTimes | ui/src/components/astronomy-todo-list.tsx:544-556 | with both times present, descending is ascending reversed, and ascending follows the night's order |
| TodoList.NotAfterByKey | ui/src/components/astronomy-todo-list.tsx:484-557 | each field's comparator orders the objects by a key of theirs |
| TodoList.NotAfterTotalPreorder | ui/src/components/astronomy-todo-list.tsx:484-557 | every comparator of the view is a total preorder, so the stable sort by it is well defined |
| TodoList.ViewSpec | ui/src/components/astronomy-todo-list.tsx:465-560 | the view holds the filtered objects, each as often as in the list, and when a field and direction are set no object precedes one the comparator puts strictly ahead of it |
| TodoList.ViewMissingTimesLast | ui/src/components/astronomy-todo-list.tsx:544-553 | sorted by a time field in either direction, all objects with a time come before those without |
| TodoList.FindById | ui/src/components/astronomy-todo-list.tsx:211 | `find`: none iff no object has the id, otherwise an object of the list with that id |
| TodoList.ToggleCompletion | ui/src/components/astronomy-todo-list.tsx:210-225 | the object flips completed; completedAt is now when it becomes completed and cleared otherwise; nothing else changes |
| TodoList.ToggleFlag | ui/src/components/astronomy-todo-list.tsx:229-243 | the object's flag becomes the negation of its truth value, nothing else changes |
| TodoList.ToggleFlagTwice | ui/src/components/astronomy-todo-list.tsx:229-243 | toggling the flag twice leaves the object flagged exactly when it was |
| TodoList.SaveGoalTime | ui/src/components/astronomy-todo-list.tsx:256-267 | an empty goal time clears it; nothing else changes |
| TodoList.SaveNotes | ui/src/components/astronomy-todo-list.tsx:275-286 | the notes are trimmed and blank notes are cleared; nothing else changes |
| TodoList.Dedup | ui/src/components/astronomy-todo-list.tsx:98 | `indexOf` filtering keeps each element once, the same elements as the input |
| TodoList.TypesOf | ui/src/components/astronomy-todo-list.tsx:97 | each object's type, "Unknown" when it has none |
| TodoList.AvailableTypesSpec | ui/src/components/astronomy-todo-list.tsx:95-101 | the available types are strictly increasing and are exactly the types of the objects |
| TodoList.StripNamePrefix | ui/src/components/astronomy-todo-list.tsx:168-171 | a looked-up name loses a leading "NAME " and is otherwise kept |
| TodoList.LookedUpObject | ui/src/components/astronomy-todo-list.tsx:174-185 | the added object: missing catalogue data shown as "N/A" (type "Unknown"), not completed, notes trimmed and dropped when blank, with the fresh id and the current time |
| TodoList.ExportAsWrittenLosesQuote | ui/src/components/astronomy-todo-list.tsx:405-410 | a name holding a quote is not read back by the importer from the as-written export: `a"b` reads back as `ab`, while the escaped form reads back exactly |
| TodoList.QuotedThenComma | ui/src/components/astronomy-todo-list.tsx:406-420 | a quoted cell and a comma read back as that cell, then the fields after the comma |
| TodoList.ExportRowAsWrittenLosesQuote | ui/src/components/astronomy-todo-list.tsx:401-421 | in a whole as-written row, a name `a"b` reads back as a first field beginning with `ab`, so the name is lost |
| TodoList.ExportHeadersImport | ui/src/components/astronomy-todo-list.tsx:384-398 | the export's header line has the Name, RA and Dec columns the import dialog requires |
| TodoList.ExportHeaderFields | ui/src/components/astronomy-todo-list.tsx:384-398 | the header line reads back as its thirteen header cells |
| TodoList.ExportRowRoundTrip | ui/src/components/astronomy-todo-list.tsx:401-421 | with quotes doubled in all four quoted cells, an exported row reads back with the object's name, type, RA and Dec as its first four fields |
| DataSync.ReplacedSpec | ui/src/components/use-data-sync.tsx:134-136 | an update keeps the length and every object with another id in place, puts the new version at every position with its id, changes nothing for an unlisted id, and is idempotent |
| DataSync.NamesOf | ui/src/components/use-data-sync.tsx:202 | the set holds exactly the lower-cased names of the list |
| DataSync.MergedSpec | ui/src/components/use-data-sync.tsx:200-205 | a merge keeps the list as its prefix and appends, in import order, exactly the imported objects whose lower-cased name is not already listed |
| DataSync.MergeKeepsDuplicatesOfTheImport | ui/src/components/use-data-sync.tsx:202-204 | imported objects that share a new name with each other are all kept |
| DataSync.MergeTwice | ui/src/components/use-data-sync.tsx:200-205 | merging the same import a second time adds nothing |
| DataSync.TodoStore.constructor | ui/src/components/use-data-sync.tsx:8 | the hook starts from the initial list and whatever local storage holds |
| DataSync.TodoStore.FetchData | ui/src/components/use-data-sync.tsx:14-45 | nothing without a user; the server's list replaces the list and the stored copy; on failure the stored copy, if any, is shown |
| DataSync.TodoStore.SyncData | ui/src/components/use-data-sync.tsx:48-84 | nothing without a user; the server's copy replaces both lists on success; on failure the list stays and the data sent is stored |
| DataSync.TodoStore.AddObject | ui/src/components/use-data-sync.tsx:87-129 | exactly one object is appended and mirrored to storage: the server's copy when signed in and the request succeeds, the local object otherwise |
| DataSync.TodoStore.UpdateObject | ui/src/components/use-data-sync.tsx:132-164 | the list is updated at once and mirrored; the result is the server's answer, or the object itself without a user or on failure |
| DataSync.TodoStore.DeleteObject | ui/src/components/use-data-sync.tsx:167-191 | every object with the id leaves the list at once and storage mirrors it; the result is false only when a signed-in request fails |
| DataSync.TodoStore.ImportObjects | ui/src/components/use-data-sync.tsx:194-217 | the list becomes the import (replace) or the merge, and is stored; with a user it is then synced, and the server's copy replaces it on success |
| DataSync.DeleteSpec | ui/src/components/use-data-sync.tsx:169 | a delete removes exactly the objects with the id and keeps the others in order |
| TagSelector.TrimAll | ui/src/components/tag-selector.tsx:23 | every piece trimmed of JavaScript whitespace, in place |
| TagSelector.ParseTags | ui/src/components/tag-selector.tsx:23 | the parsed tags are trimmed of JavaScript whitespace and non-empty, so a tag of spaces such as U+00A0 is dropped |
| Text.NoBreakSpaceTrims | ui/src/components/tag-selector.tsx:23 | both `trim` and `strip` remove a no-break space (U+00A0) |
| Text.ByteOrderMarkTrims | manifest.py:127 | JavaScript's `trim` removes U+FEFF while Python's `strip` keeps it |
| Text.ArabicIndicDigit | manifest.py:167 | Python's `\d` takes the Arabic-Indic digit three (U+0663), JavaScript's does not |
| Text.AsciiRegexDigits | manifest.py:146 | below U+0660 both languages' `\d` are exactly the ASCII digits |
| TagSelector.ParseEmitted | ui/src/components/tag-selector.tsx:23-46 | parsing the emitted value of a selection of plain tags gives back the selection |
| TagSelector.AvailableRecent | ui/src/components/tag-selector.tsx:63-100 | at most ten suggestions are shown |
| TagSelector.AvailableRecentSpec | ui/src/components/tag-selector.tsx:63-100 | each suggestion is a recent tag that is not selected, and when there are at most ten such tags they are all shown in their order |
| TagSelector.Selector.constructor | ui/src/components/tag-selector.tsx:21-25 | the selection is read from the value the selector is given |
| TagSelector.Selector.AddTag | ui/src/components/tag-selector.tsx:40-48 | a tag blank once trimmed, or already selected, changes nothing; otherwise the trimmed tag is appended, the selection emitted joined by ", " and the input cleared; a duplicate-free selection stays so |
| TagSelector.Selector.RemoveTag | ui/src/components/tag-selector.tsx:50-54 | the tag leaves the selection, every other tag keeps its place, and the rest is emitted |
| TagSelector.Selector.ValueChanged | ui/src/components/tag-selector.tsx:21-25 | a new value replaces the selection with its tags |
| TagSelector.Selector.KeyDown | ui/src/components/tag-selector.tsx:56-61 | Enter or a comma adds the text being typed; other keys change nothing |
| TagSelector.AddTagRoundTrip | ui/src/components/tag-selector.tsx:23-46 | after an add, the emitted value parses back to the new selection when no tag holds a comma |
| QueryBuilder.MarksOfQuestions | ui/src/lib/database/query-builder.ts:32 | the placeholders of a `whereIn` number exactly its values |
| QueryBuilder.InOperatorMarks | ui/src/lib/database/query-builder.ts:31-39 | the operator `whereIn` stores holds one "?" per value and mentions IN |
| QueryBuilder.ClausesMarks | ui/src/lib/database/query-builder.ts:87-99 | the clauses hold as many placeholders as the conditions contribute parameters: all values for an IN condition, one value otherwise |
| QueryBuilder.SelectPlaceholders | ui/src/lib/database/query-builder.ts:83-117 | a SELECT built from `where` and `whereIn` conditions has exactly as many "?" as parameters |
| QueryBuilder.InsertPlaceholders | ui/src/lib/database/query-builder.ts:120-127 | an INSERT has one placeholder per key and one parameter per value |
| QueryBuilder.UpdateListCondition | ui/src/lib/database/query-builder.ts:138-145 | update does not special-case IN: a two-value `whereIn` gives three placeholders and one parameter |
| QueryBuilder.CollectConditions | ui/src/lib/database/query-builder.ts:87-97 | the walk over the conditions collects their clauses and, in condition order, their parameters |
| QueryBuilder.Builder.constructor | ui/src/lib/database/query-builder.ts:5-15 | a new builder selects "*" from the table, with no condition, order, limit or offset |
| QueryBuilder.Builder.Select | ui/src/lib/database/query-builder.ts:17-20 | a single field becomes a one-element list; nothing else changes |
| QueryBuilder.Builder.Where | ui/src/lib/database/query-builder.ts:22-25 | the condition is appended; nothing else changes |
| QueryBuilder.Builder.WhereEquals | ui/src/lib/database/query-builder.ts:27-29 | an "=" condition is appended |
| QueryBuilder.Builder.WhereIn | ui/src/lib/database/query-builder.ts:31-39 | a list condition with one placeholder per value is appended |
| QueryBuilder.Builder.OrderByAsc | ui/src/lib/database/query-builder.ts:41-44 | an ascending order is appended |
| QueryBuilder.Builder.OrderByDesc | ui/src/lib/database/query-builder.ts:46-49 | a descending order is appended |
| QueryBuilder.Builder.Limit | ui/src/lib/database/query-builder.ts:51-54 | the limit is set; nothing else changes |
| QueryBuilder.Builder.Offset | ui/src/lib/database/query-builder.ts:56-59 | the offset is set; nothing else changes |
| QueryBuilder.Builder.BuildSelectQuery | ui/src/lib/database/query-builder.ts:83-117 | SELECT fields FROM table, then WHERE (AND-joined), ORDER BY, LIMIT and OFFSET each only when set, with the parameters in condition order |
| QueryBuilder.Builder.FindOne | ui/src/lib/database/query-builder.ts:66-70 | the limit becomes 1 and stays so on the builder; the SELECT of that state is issued |
| QueryBuilder.Builder.Count | ui/src/lib/database/query-builder.ts:72-81 | the SELECT issued selects COUNT(*), the selected fields are restored afterwards, and the result is the first count or 0 |
| QueryBuilder.Builder.Insert | ui/src/lib/database/query-builder.ts:120-127 | INSERT INTO table (keys) VALUES (one "?" per key), with the values as parameters |
| QueryBuilder.Builder.Update | ui/src/lib/database/query-builder.ts:130-149 | UPDATE table SET key = ? per key, then the conditions; the parameters are the SET values followed by one per condition |
| QueryBuilder.Builder.Delete | ui/src/lib/database/query-builder.ts:152-167 | DELETE FROM table with the conditions, one parameter per condition |
| AltitudeChart.CoveredAppend | ui/src/components/altitude-chart.tsx:101 | an ideal point covered before a run is pushed, or inside the pushed run, is covered afterwards |
| AltitudeChart.CloseRun | ui/src/components/altitude-chart.tsx:100-101 | closing the open run at the point before the current one keeps every ideal point seen so far covered |
| AltitudeChart.StartRun | ui/src/components/altitude-chart.tsx:98-99 | an ideal point with no run open opens a run there, keeping the scan invariant |
| AltitudeChart.EndRun | ui/src/components/altitude-chart.tsx:100-102 | a non-ideal point with a run open pushes that run as a maximal run and keeps the scan invariant |
| AltitudeChart.KeepRun | ui/src/components/altitude-chart.tsx:97-104 | any other point leaves the ranges and the open run unchanged and keeps the scan invariant |
| AltitudeChart.ScanRuns | ui/src/components/altitude-chart.tsx:94-105 | after the loop over all points the pushed runs are maximal, ordered and apart, and every ideal point is in one of them or in the run still open |
| AltitudeChart.FinishRuns | ui/src/components/altitude-chart.tsx:106-108 | closing the run still open at the last point completes a cover of every ideal point by maximal runs |
| AltitudeChart.IdealRanges | ui/src/components/altitude-chart.tsx:92-108 | the ideal ranges are maximal runs of ideal points, in order and apart, covering every ideal point; there are none exactly when no point is ideal |
| ImageHeader.BE16 | ui/src/lib/image-processing.ts:41-42 | a big-endian 16-bit read is below 65536 |
| ImageHeader.BE32 | ui/src/lib/image-processing.ts:29-30 | a big-endian 32-bit read is below 2^32 |
| ImageHeader.LE16 | ui/src/lib/image-processing.ts:55-56 | a little-endian 16-bit read is below 65536 |
| ImageHeader.Low14 | ui/src/lib/image-processing.ts:55-56 | masking with 0x3FFF leaves a value below 16384 |
| ImageHeader.DimensionsFromBuffer | ui/src/lib/image-processing.ts:26-62 | the reader as written, with its JPEG marker loop, returns exactly the dimensions the header describes |
| ImageHeader.JpegScanFound | ui/src/lib/image-processing.ts:35-50 | JPEG dimensions come from an 0xFF followed by SOF0 to SOF3 that the scan reaches, with height at +5 and width at +7 |
| ImageHeader.JpegScanShort | ui/src/lib/image-processing.ts:37 | a buffer of ten bytes or fewer yields no JPEG dimensions |
| ImageHeader.PngFirst | ui/src/lib/utils.ts:29-33 | a PNG signature is checked first and gives the 32-bit width and height at offsets 16 and 20 |
| ImageHeader.JpegWithoutFrame | ui/src/lib/utils.ts:36-60 | a JPEG without a frame marker gives no dimensions, since the WebP branch cannot match it |
| ImageHeader.DimensionsSpec | ui/src/lib/utils.ts:27-63 | dimensions are returned exactly for a PNG, a JPEG with a frame marker, or a lossy WebP header; JPEG sizes are 16-bit and WebP sizes below 16384 |
| Backup.GetBackupConfig | ui/src/lib/database/backup.ts:13-20 | backups are enabled exactly when the variable is the string "true" |
| Backup.DefaultInterval | ui/src/lib/database/backup.ts:16 | an unset or empty interval gives 24 hours |
| Backup.MaxBackupsValue | ui/src/lib/database/backup.ts:17 | an unset or empty maximum gives 7; a decimal maximum gives that number |
| Backup.BackupPathValue | ui/src/lib/database/backup.ts:18 | an unset or empty path gives "./backups"; any other path is kept |
| Backup.BackupFilesMembers | ui/src/lib/database/backup.ts:42-47 | the backup list holds exactly the names of the listing that end in ".sqlite" |
| Backup.BackupFilesDescending | ui/src/lib/database/backup.ts:49-50 | the backup list is in descending name order, most recent first |
| Backup.RetentionSpec | ui/src/lib/database/backup.ts:48-57 | only backups are deleted; none while there are at most the maximum; otherwise exactly the surplus, each no greater than every backup kept |
| Backup.UnusualMaximum | ui/src/lib/database/backup.ts:52-53 | a maximum that is not a number deletes nothing; a negative one deletes the oldest backups, as many as it counts from the end |
| Backup.SidecarsNeverDeleted | ui/src/lib/database/backup.ts:43-44 | no WAL or SHM copy is ever chosen for deletion |
| Backup.FirstFailure | ui/src/lib/database/backup.ts:54-60 | the position of the first deletion that fails: every earlier one succeeds |
| Backup.FirstFailureAt | ui/src/lib/database/backup.ts:54-60 | the first failure is the one position with all earlier deletions succeeding and itself failing or past the end |
| Backup.RemovedWithoutFailures | ui/src/lib/database/backup.ts:52-57 | when no deletion fails, exactly the surplus backups are removed |
| Backup.BackupFolder.constructor | ui/src/lib/database/backup.ts:42 | the folder lists the given names |
| Backup.BackupFolder.UnlinkInOrder | ui/src/lib/database/backup.ts:54-57 | the names are unlinked in order up to the first failure, which ends the loop |
| Backup.BackupFolder.CleanupOldBackups | ui/src/lib/database/backup.ts:40-62 | an unreadable folder is left alone; otherwise the surplus backups are removed up to the first failing deletion, and the error is swallowed |
| Backup.BackupFolder.BackupSQLiteDatabase | ui/src/lib/database/backup.ts:65-123 | nothing is copied and the result is null when the dialect is not SQLite, the storage is missing or empty, backups are disabled or the source is missing; otherwise the copy, and its WAL and SHM copies when they exist, are added, old backups cleaned and the new path returned |
| Backup.CleanupKeepsSidecars | ui/src/lib/database/backup.ts:102-117 | WAL and SHM copies survive every cleanup |
| Schedules.CurrentUser | ui/src/app/api/schedules/route.ts:33-39 | the request's user, or else the default user, is the current user; an empty id counts as absent, and no user means 401 |
| Schedules.ActiveOf | ui/src/app/api/schedules/active/route.ts:17-22 | the active schedule found belongs to the user and is active; none is found only when the user has no active schedule |
| Schedules.FindOwned | ui/src/app/api/schedules/route.ts:89-95 | a schedule is found exactly when one has the id and belongs to the user |
| Schedules.LatestFrom | ui/src/app/api/schedules/active/route.ts:26-29 | the latest schedule is the user's, is updated no earlier than any other of theirs, and strictly later than those before it; there is none only when the user has no schedule |
| Schedules.Deactivated | ui/src/app/api/schedules/route.ts:97-103 | the bulk update turns off every schedule of the user and touches no other user's rows |
| Schedules.Updated | ui/src/app/api/schedules/route.ts:105-112 | each field present in the body replaces the stored one, the others are kept, and the id and owner never change |
| Schedules.Without | ui/src/app/api/schedules/route.ts:148 | destroying a schedule removes just that row and keeps the others in order |
| Schedules.ActivateKeepsOneActive | ui/src/app/api/schedules/active/route.ts:31-32 | activating a schedule of a user with no other active one keeps at most one active schedule per user |
| Schedules.AppendKeepsOneActive | ui/src/app/api/schedules/route.ts:48-61 | a new schedule, active only when the user had none, keeps at most one active schedule per user |
| Schedules.DeactivatedKeepsOneActive | ui/src/app/api/schedules/route.ts:97-103 | after the bulk deactivation the user has no active schedule, and the invariant holds |
| Schedules.PutKeepsOneActive | ui/src/app/api/schedules/route.ts:97-112 | a PUT keeps at most one active schedule per user, and one that activates leaves the updated schedule as the user's only active one |
| Schedules.DeleteKeepsOneActive | ui/src/app/api/schedules/route.ts:148-160 | a DELETE keeps at most one active schedule per user, and deleting the active one with others left activates the most recently updated of them |
| Schedules.ActiveOfUnique | ui/src/app/api/schedules/active/route.ts:17-22 | when exactly one schedule of the user is active, it is the one the lookup returns |
| Schedules.ScheduleStore.constructor | ui/src/app/api/schedules/route.ts:49-51 | the table starts empty and satisfies the invariants |
| Schedules.ScheduleStore.Post | ui/src/app/api/schedules/route.ts:29-68 | 401 without a user, 400 without a name; otherwise one schedule is appended, active exactly when the user had none, items defaulting to empty, and 201 |
| Schedules.ScheduleStore.Put | ui/src/app/api/schedules/route.ts:70-119 | 401 without a user, 400 without an id, 404 unless the user owns it; otherwise the rows become the PUT rows, keeping at most one active schedule per user |
| Schedules.ScheduleStore.Delete | ui/src/app/api/schedules/route.ts:121-166 | 401 without a user, 400 without an id, 404 unless the user owns it; otherwise the rows become the DELETE rows, keeping at most one active schedule per user |
| Schedules.ScheduleStore.GetActive | ui/src/app/api/schedules/active/route.ts:5-44 | 401 without a user; the user's active schedule when there is one; otherwise the most recently updated one, made active; nothing when the user has no schedules |
| Schedules.ActivateKeepsIds | ui/src/app/api/schedules/active/route.ts:32 | updating a row in place keeps the ids distinct |
| Schedules.PutKeepsIds | ui/src/app/api/schedules/route.ts:97-112 | a PUT keeps the ids distinct |
| Schedules.DeleteKeepsIds | ui/src/app/api/schedules/route.ts:148-160 | a DELETE keeps the ids distinct |
| Models.ImageUrlDirect | ui/src/lib/models.ts:273-283 | an uploaded image is served from "/uploads/" with the rest of its path; any other image, with or without a url, from the legacy host by user, size and id |
| Models.ImageUrl | ui/src/lib/models.ts:285-287 | an image's URL is the direct URL of its own url, id and user |
| Models.UploadedUrl | ui/src/lib/models.ts:275-278 | an uploaded image's URL is its path with a leading slash |
| Models.LegacyUrlInjective | ui/src/lib/models.ts:281 | two legacy URLs of the same user and size are equal only for the same id |
| Models.Canonical | ui/src/lib/models.ts:9-120 | a number text accepted as a key number is exactly how that number prints |
| Models.ParseKeyText | ui/src/lib/models.ts:9-120 | reading back a designation's key text gives the designation |
| Models.KeyTextParse | ui/src/lib/models.ts:9-120 | a key text that reads as a designation is that designation's key text |
| Models.Inverse | ui/src/lib/models.ts:9-120 | every key of the table has a Messier number in 1..110 and is the key written at that place |
| Models.Onto | ui/src/lib/models.ts:10-119 | the key written at each place 1..110 maps to that Messier number |
| Models.MessierRange | ui/src/lib/models.ts:9-120 | every value of the table is one of "M 1" to "M 110" |
| Models.MessierOnto | ui/src/lib/models.ts:10-119 | each of "M 1" to "M 110" is the value of some key |
| Models.MessierInjective | ui/src/lib/models.ts:9-120 | no two keys share a value |
| Models.Name | ui/src/lib/models.ts:311-313 | the name is the first name, one space, then the last name |
| Models.Initials | ui/src/lib/models.ts:314-316 | with both names non-empty, the initials are their first characters with a space between |
| Models.AvatarUrl | ui/src/lib/models.ts:317-339 | the avatar is empty exactly when the email is missing or empty |
| Migrations.CommittedFrom | ui/src/lib/database/migrations.ts:43-55 | the run commits the pending migrations in order up to the first whose transaction throws, each committing against the ids recorded before it |
| Migrations.RecordsOfIds | ui/src/lib/database/migrations.ts:48-51 | the rows inserted for a list of migrations carry exactly their ids |
| Migrations.RunOnlyPending | ui/src/lib/database/migrations.ts:39-55 | the migrations a run commits come from the list, in its order, and none was recorded before |
| Migrations.AllRecorded | ui/src/lib/database/migrations.ts:35-56 | after a run in which every pending migration committed, every migration of the list is recorded |
| Migrations.RerunHasNothingPending | ui/src/lib/database/migrations.ts:39-41 | after a complete run, running the same list again finds nothing pending |
| Migrations.RunStep | ui/src/lib/database/migrations.ts:46-52 | one committed transaction appends its row and its step and keeps the table keyed by id |
| Migrations.MigrationRunner.constructor | ui/src/lib/database/migrations.ts:14-16 | the runner starts on the given table with no schema step committed |
| Migrations.MigrationRunner.RunMigrations | ui/src/lib/database/migrations.ts:35-56 | the table then exists; the rows and steps of the pending migrations that committed are appended in order, and the run ends without error exactly when all of them committed, otherwise with the first failing id |
| Migrations.MigrationRunner.RollbackMigration | ui/src/lib/database/migrations.ts:58-67 | the rollback succeeds exactly when the table exists and down does not throw; then the rows with the id are deleted and a down step is recorded, otherwise nothing changes |
| Migrations.FilterIds | ui/src/lib/database/migrations.ts:63 | deleting the rows with an id removes that id and keeps every other |
| Migrations.FilterKeepsDistinct | ui/src/lib/database/migrations.ts:63 | deleting rows keeps the table keyed by id |
| Factory.NewConnection | ui/src/lib/database/factory.ts:15-34 | a created connection is filed under the key its configuration gives |
| Factory.NewConnectionSpec | ui/src/lib/database/factory.ts:17-34 | a connection is created exactly for Neon with a non-empty connection string or SQLite with a non-empty file path, with that location; any other configuration is an error |
| Factory.UnknownTypeSharesSqliteKey | ui/src/lib/database/factory.ts:56-60 | a configuration of an unknown type has the key of the SQLite configuration with the same file path, so a cached SQLite connection is returned for it |
| Factory.DatabaseFactory.constructor | ui/src/lib/database/factory.ts:6 | the table of connections starts empty |
| Factory.DatabaseFactory.CreateConnection | ui/src/lib/database/factory.ts:8-38 | a connection cached under the key is returned unchanged; otherwise the new connection is filed under the key, or the error is returned and nothing is filed |
| Factory.DatabaseFactory.CloseConnection | ui/src/lib/database/factory.ts:40-48 | the connection under the key is closed and removed; an absent key changes nothing |
| Factory.DatabaseFactory.CloseAllConnections | ui/src/lib/database/factory.ts:50-54 | every cached connection is closed, nothing else is, and the table is emptied |
| Db.OrNull | ui/src/lib/db.ts:77-82 | an absent or empty optional text is stored as null, and a stored text is never empty |
| Db.CreateSpec | ui/src/lib/db.ts:65-102 | a create succeeds exactly when the id is not in use; it adds just that row, owned by the user, with a missing flag stored as false and an empty note as null, and the answer carries the id and a flag; other rows are untouched |
| Db.UpdateSpec | ui/src/lib/db.ts:104-149 | an update fails exactly when the user owns no row with the id; it changes only that row, keeps its owner and addedAt, and answers the item as given |
| Db.DeleteIds | ui/src/lib/db.ts:197-203 | the bulk delete removes exactly the user's rows with the listed ids and keeps every other row as it was |
| Db.SyncStepSpec | ui/src/lib/db.ts:180-190 | one successful step updates an id the user had at the start, or creates any other, keeping the loop invariant |
| Db.SyncLoopSpec | ui/src/lib/db.ts:180-190 | a loop without failure answers one item per input item in order, the item itself for an update, and leaves the user owning every id seen while other users' rows are untouched |
| Db.SyncOwnsExactlyItems | ui/src/lib/db.ts:164-208 | after a successful sync the user's ids are exactly the ids of the list |
| Db.TodoDatabase.constructor | ui/src/lib/db.ts:65 | the table starts empty and keyed by id |
| Db.TodoDatabase.Create | ui/src/lib/db.ts:65-102 | the create writes the outcome CreateSpec describes |
| Db.TodoDatabase.Update | ui/src/lib/db.ts:104-149 | the update writes the outcome UpdateSpec describes, failing when nothing was affected |
| Db.TodoDatabase.Delete | ui/src/lib/db.ts:152-161 | the answer is true exactly when the user owned a row with the id, and only that row is removed |
| Db.TodoDatabase.Sync | ui/src/lib/db.ts:164-208 | items are updated or created in order; the first failure is returned with the rows written before it kept; otherwise the answers are returned and the user's rows the list does not name are deleted |
| Db.StringGeTotalPreorder | ui/src/lib/db.ts:257 | the reversed comparison is a total preorder, so the sort is well defined |
| Db.ObservationOrderSpec | ui/src/lib/db.ts:244-261 | the observations come back latest session date first, each exactly as often as stored |
| Db.Title | ui/src/lib/db.ts:362-367 | the title is the display name, followed by " - " and the common name when there is a non-empty one |
| Db.SyncLoopFailedStays | ui/src/lib/db.ts:180-190 | once an item of the loop fails, the later items change nothing: the rows and answers stay as they were at the failure |

## Left out

- I/O is an input to the model. This covers the file system, the FITS reader, hashing, the plate solver, Simbad, SQLite, HTTP requests and replies, and `fetch`. The model takes the answers it needs as parameters: `found`/`probe`, `simbad`, `readOk`/`writeOk`, `failing` sets, `None` replies and `sourceExists`.
- Console and logger output is not modelled. `console.log`/`console.error` and `print`/`typer.echo` change no state.
- The 500 replies of the route handlers' `catch` blocks are not modelled.
- The clock is a parameter. This covers `new Date()`, `Date.now()` and the backup timestamp.
- Random ids are parameters: `crypto.randomUUID`, `nanoid` and the ids the database generates.
- The SHA-256 digest of the avatar URL is a function parameter. The Gravatar query string is written out as the source builds it.
- Floating point is modelled as `real`. The same goes for `toFixed`. The host's `parseFloat` is a function parameter of the to-do list comparator and the recommendations. `parseInt` is modelled for decimal digits only.
- Trigonometry is left out. This covers the altitude and azimuth of an object at the current time. They are the inputs of the comparator (`Readings`) and of the altitude points.
- `localeCompare` is modelled as code-point order. ICU collation and the locale are left out.
- TodoList.AvailableTypes: `.sort()` compares UTF-16 code units, while the model compares code points. The two orders differ only between characters above U+FFFF and characters in U+E000..U+FFFF.
- `toLowerCase` and `lower()` are modelled as ASCII-only. Unicode case mapping is left out.
- `toLocaleDateString` is a parameter of the CSV export: the export takes the dates already printed, in `ExportContext`.
- Common-name rules 1, 4 and 5 of `_extract_common_name` are abstract matchers (`string -> Option<string>`). The `NAME` and asterism rules, and the filter after them, are concrete.
- The regular-expression engine is not modelled in general. The catalog rules and the coordinate patterns are written out as the prefix/whitespace/digit-run matchers they are, with each language's `\s` and `\d`.
- JSON encoding and decoding are left out. `JSON.parse` is a parameter of the import dialog. The lookup cache stores the record itself. The manifest file is a value.
- `path.join` normalisation is left out. A backup path is the folder, "/", then the name.
- Python `str` paths are modelled as text. A character outside ASCII in `os.fsencode` is not modelled.
- Schedule items are opaque texts. The route handlers store them and never read them.
- The schedule list `GET` (ui/src/app/api/schedules/route.ts:5-27) is a read with no rule beyond the user filter and the order, so it is not modelled.
- Schedules.ScheduleStore.Put: every update sets `updatedAt`. Sequelize skips the write when no field changed, which is not modelled.
- Schedules.LatestFrom: the database leaves the order of equal `updated_at` values open. The model takes the first in storage order.
- Db.TodoDatabase.Sync: the create and update calls inside the transaction are not passed the transaction. The model therefore keeps the rows written before a failure, and models no rollback.
- `fetchAstronomyTodoItems` and the distance text of `transformAstroObject` (`formatLightYears`) are not part of this model. Only the title of `transformAstroObject` is.
- Migrations.MigrationRunner.RunMigrations: the `up` and `down` steps are abstract. A failing migration is named in a `failing` set, and `executed_at` is not modelled.
- Models.AvatarUrl: the contract states when the avatar is empty. It does not state the shape of the URL, because that depends on the digest parameter.
- QueryBuilder.Builder.Update and QueryBuilder.Builder.Delete are modelled as written. A `whereIn` condition still gets " ?" and one list parameter, so the statement does not match its parameters (`UpdateListCondition`). The model records this and does not correct it.
- Schedule.NumberOf: `Number` is modelled for its integer forms: surrounding whitespace, an empty piece (0), and an optional sign before decimal digits. A fraction ("1.5"), an exponent ("1e1"), a `0x`/`0o`/`0b` prefix and `Infinity` are read as NaN, whereas `Number` gives a number for them. This matters only for a stored `startTime` that was not written by the time input.
- ImportDialog.ItemObjects: a JSON member that is not text is read as absent. The source's check is a truthiness test, so a number such as `"ra": 10.68` passes it and is imported as is; the model rejects that item as missing its required fields.
- ImportDialog.ParseJson: for the same reason, a numeric `magnitude` or `size` becomes "N/A" in the model, while the source keeps the number.
- ImportDialog.DateCell: `new Date(text).toISOString()` is a parameter of the CSV reader (`DateReader`). Which texts name a valid date, and their ISO form, are not modelled; the RangeError on an invalid date is modelled.
- Whitespace and Python's `\d` follow the Unicode 15.0 database (that of Python 3.12). The sets of other Unicode versions are not followed.
- Schedule.GetScheduleConflicts is modelled as written. It compares "HH:MM" texts, so an item that crosses midnight is missed (`MidnightOverlapMissed`).
- The React rendering, toasts, dialogs and effects around the modelled handlers are left out. Only the state the handlers change is modelled.

## Findings

| source | as written | input that shows it | evidently intended | confidence | as-written member | corrected member |
|---|---|---|---|---|---|---|
| manifest.py:322 | `from random import random` (line 7) binds the function `random`, so `random.shuffle(files)` raises `AttributeError` before any file is examined, and `update` never adds a file | a missing manifest and one `m31.fit` that describes successfully: the as-written run fails, while the intended run appends its description | shuffle the candidate files (any order) and ingest them | not executed | Ingestion.AsWrittenAddsNothing | Ingestion.Update |
| ui/src/components/astronomy-todo-list.tsx:405-410 | the name, type, right ascension and declination cells are wrapped in quotes without doubling the quotes inside them, unlike the notes cell at line 419 | an object named `a"b` is exported as `"a"b"`, which the import dialog's parser reads back as `ab` | quote each text cell with inner quotes doubled, as the notes cell does | not executed | TodoList.ExportAsWrittenLosesQuote | TodoList.ExportRowRoundTrip |
