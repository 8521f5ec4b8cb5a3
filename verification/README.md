# A model of the run and benchmark services

This project models four parts of the server and proves what they promise.

**Run files.** `Wire.dfy` has the Protocol Buffers wire decoders the parser calls (base-128 varints, tags, fixed and
length-delimited values, groups nested up to the library's limit of 10000), with the negative codes they return.
`Walks.dfy` has the loops over the statistics and environment messages, as methods that reslice the data and write
through a result object, and proves that a walk is a last-writer-wins fold over the decoded fields. `Mouse.dfy` has the
points of a mouse trace with Go's wrapping 32- and 64-bit differences. `RunFile.dfy` has the parser itself: a reader that
is consumed as it goes, a limited reader over it, one method per section, the payload and the file, each proved equal to
a function on the bytes. `RunFileFormat.dfy` gives the byte grammar of a file and proves that the parser accepts exactly
that grammar and crashes on exactly the inputs it describes, that a writer's file parses back to the written values,
and how many bytes each section takes.

**Uploads.** `Uploads.dfy` is a step machine: any number of `SyncOne` calls, each at a program counter, over a row
table and an object store, in any interleaving and with any failures. It proves content integrity, the absence of orphan
objects, one committed row per successful call, and, while calls on one hash do not overlap, that no row dangles and
every file reported as stored can be downloaded again. `UploadOverlap.dfy` gives the exact condition under which calls
in flight can lose an object, and the two-client run that does it. `StoragePolicy.dfy` says which rows name an object,
from the settings answered during a run. `SyncService.dfy` is the service as one caller runs it. While a call runs,
other clients appear in it only through the rows they commit before its insert; given those rows, the call is a run of
the machine in which nobody else moves (`PlayIsRun`). What other clients delete or replace is in the machine only.
`SyncOutcomes.dfy` says how a sync ends and what it leaves behind, from its replies and the tables alone.
`BulkSync.dfy` is the batch loop over it; `Downloads.dfy` and `MissingHashes.dfy` are the raw download and the hash
negotiation; `RunTables.dfy` is the insert transaction over players, scenarios and runs.

**Run lists.** `ListQuery.dfy` compiles a request to a conjunction of SQL clauses with positional placeholders and
evaluates it with three-valued logic; `LikePatterns.dfy` has `LIKE` with its wildcards and escapes. `PageWalk.dfy` has
request normalisation, the sort orders, paging by fetching one row too many, and the walk over all pages.
`Sorting.dfy` has the sorting both lists and hashes use.

**Benchmarks.** `GoMemory.dfy` has Go's slices, pointers and `append` over explicit backing arrays. `Grouping.dfy` and
`BenchmarkTree.dfy` define the hierarchy as a pure grouping of rows by foreign key, and where scenario links go in it.
`Attaching.dfy`, `BenchmarkLinks.dfy` and `BenchmarkBuilder.dfy` build the same tree in place, through maps of pointers
into slices that are still being filled, with the maps enumerated in any order, and prove that the result is the grouping.
`BenchmarkRows.dfy` reads the result against the rows: what a client sees of each table.

Foreign code appears as function parameters or unconstrained inputs: xxh3, zstd, SHA-256, the floating-point
hypotenuse, date formatting, Unicode lower-casing and case folding, and every reply of the database, the object store
and the settings store. Stored doubles are 64-bit patterns; sums of distances and times are real numbers.

Where the code and its documentation differ, the model follows the code:

- The two inner message walks stop only at length -1 (lines 220 and 384 of `internal/runs/refleks_format.go`). Any other
  negative length is used to reslice the data and panics. `WalkReturnsExactly` is the exact domain, and
  `StrictWalkAgrees` shows that stopping at any negative length would change nothing else.
- `README.md:421` of the repository describes a second deduplication key, the `Hash` statistic. The code has only the
  SHA-256 of the file, and so has the model.
- Two overlapping uploads of one file can leave a committed row without its object, because the losing call deletes the
  object that both put. `CanDangleExactly`, `TwoClientsLoseTheObject` and `StoredFileLost` say when and how, and
  `StoredFilesStayDownloadable` that it takes overlap.
- A mouse section is not read to the end of its announced size, so a size that counts more than the points shifts the
  sections after it (`MouseSizeAgrees`).

## Model

| member | source | states |
|---|---|---|
| Bytes.FixedRoundTrips | internal/runs/refleks_format.go:95-97 | Little-endian 32- and 64-bit numbers read back as written, and their bytes are written back as read |
| Bytes.SignedRoundTrips | internal/runs/refleks_format.go:95 | Converting a signed number to its bits and back is the identity, both ways, at 32 and 64 bits |
| Bytes.WrapIsCongruent | internal/runs/refleks_format.go:338-342 | A wrapped number is in range and differs from the number by a multiple of 2^32 or 2^64 |
| Bytes.LowestByteFirst | internal/runs/refleks_format.go:95-97 | The value of 4 or 8 bytes, the first byte being the lowest |
| Bytes.TrimSpaceIdempotent | internal/runs/service.go:103-105 | Trimming leaves no white space, ASCII or wide, at either end, and trimming again changes nothing |
| Bytes.TrimSpaceExactly | internal/runs/service.go:103-105 | Trimming cuts off a prefix and a suffix that are all white space, and what is left has none at either end |
| Bytes.SpacesAreUnicode | internal/runs/service.go:103-105 | White space is exactly the UTF-8 encodings of the characters that Unicode counts as white space |
| Wire.ConsumeTag | internal/runs/refleks_format.go:186-189 | A decoded tag takes at least one byte of the data and a failed one has a negative code |
| Wire.VarintExactly | internal/runs/refleks_format.go:186-189 | A varint ends at the first byte below 128, within ten bytes and 64 bits, and has the sum of its 7-bit groups; data that ends before that gives -1 and a value that does not fit gives -3 |
| Wire.TagExactly | internal/runs/refleks_format.go:186-189 | A tag is a varint with the wire type in its low three bits and a field number from 1 to 2^31 - 1; other numbers give -2 |
| Wire.PlainValueExactly | internal/runs/refleks_format.go:200-203 | The length of a value by its wire type, -1 if the data ends before it, -4 for reserved types and -5 for a lone end tag |
| Wire.GroupEndExactly | internal/runs/refleks_format.go:200-203 | A group ends at the end tag of its own number; another end tag gives -5 |
| Wire.GroupsNestExactly | internal/runs/refleks_format.go:200-203 | Groups nest 10000 deep inside a group and no deeper; one more gives -6 |
| Wire.SplitConcat | internal/runs/refleks_format.go:185-204 | Complete fields can be split off the front of any message without changing how the rest splits |
| Wire.SplitFieldsExact | internal/runs/refleks_format.go:200-203 | The bytes a field's value took decode, alone, to exactly that value, groups included |
| Wire.CutSplits | internal/runs/refleks_format.go:185-204 | A message cut off anywhere splits into the fields that are whole, groups included, and ends with no code but -1 |
| Wire.VarintRoundTrip | internal/runs/service_test.go:613 | Every 64-bit varint decodes to the value written and to its own length, whatever follows |
| Wire.MessageRoundTrip | internal/runs/service_test.go:602-623 | Splitting an encoded message gives exactly the entries written, in order, with nothing left over |
| Walks.WalkIgnores | internal/runs/refleks_format.go:213-224 | Fields that a walk ignores can be inserted at any field boundary, even before malformed data, without changing its end |
| Walks.WalkReturnsExactly | internal/runs/refleks_format.go:213-224 | An inner walk panics exactly when, after complete fields, a good tag has a value that fails with a code below -1 |
| Walks.CutMessagesReturn | internal/runs/refleks_format.go:213-224 | A message cut off anywhere never makes a walk panic: it returns what the fields before the cut say |
| Walks.StrictWalkAgrees | internal/runs/refleks_format.go:220-223 | A walk that stops at any negative length terminates on all data and agrees with the code wherever the code returns |
| Walks.BadWireTypeBreaks | internal/runs/refleks_format.go:219-223 | A field of wire type 4, 6 or 7 at any field boundary makes the walk panic, whatever follows |
| Walks.SummaryIsLastWriter | internal/runs/refleks_format.go:228-286 | Each summary attribute is the last value on the wire for it; fields 6 and 45 compete for the average TTK |
| Walks.SummaryIgnoresUnknown | internal/runs/refleks_format.go:284-285 | Unknown numbers and wrong wire types in a summary leave no trace, wherever they stand |
| Walks.SummaryReader.ReadSummaryField | internal/runs/refleks_format.go:228-286 | Reading one field updates the summary by that field's step and returns the field's length; a failure changes nothing |
| Walks.ExtractSummaryFields | internal/runs/refleks_format.go:211-226 | The loop returns the walk over all the data, or panics where the walk does |
| Walks.FindSummary | internal/runs/refleks_format.go:182-204 | On every byte string the outer loop returns the content of the first field-1 message, or nothing |
| Walks.StatsIgnoreOtherFields | internal/runs/refleks_format.go:191-203 | Other fields around the first summary message change nothing |
| Walks.ExtractStatsSummary | internal/runs/refleks_format.go:182-209 | The statistics are the walk over the first summary message, empty if there is none |
| Walks.EnvironmentIsLastWriter | internal/runs/refleks_format.go:392-436 | Each environment attribute is the last value on the wire for it |
| Walks.EnvironmentIgnoresUnknown | internal/runs/refleks_format.go:435 | Unknown numbers and wrong wire types in an environment leave no trace |
| Walks.EnvironmentReader.ReadEnvironmentField | internal/runs/refleks_format.go:392-436 | Reading one field updates the environment by that field's step; a varint count keeps its low 32 bits |
| Walks.ExtractEnvironment | internal/runs/refleks_format.go:375-390 | The loop returns the walk over all the data, or panics where the walk does |
| Mouse.PointsRoundTrip | internal/runs/refleks_format.go:320-335 | Written points are read back, whatever follows them |
| Mouse.BytesOfPoints | internal/runs/refleks_format.go:320-335 | Writing the points that were read gives back the bytes they were read from |
| Mouse.PointsLieInOrder | internal/runs/refleks_format.go:320-335 | Each point is 20 bytes: time, x, y and buttons at offsets 0, 8, 12 and 16 |
| Mouse.SpeedIsDistanceOverTime | internal/runs/refleks_format.go:337-355 | The average speed is the sum of the wrapped step lengths over the sum of the wrapped steps in seconds, both over the steps that move forward in time |
| Mouse.SpeedPresentExactly | internal/runs/refleks_format.go:337-355 | There is an average speed exactly when some wrapped time step is positive |
| Mouse.TimeTelescopes | internal/runs/refleks_format.go:338-343 | For timestamps that never go back or overflow, the total time is the last minus the first |
| Mouse.ShiftInvariance | internal/runs/refleks_format.go:338-342 | Moving all x or y modulo 2^32, or all timestamps modulo 2^64, changes no metric |
| RunFile.Reader.ReadFull | internal/runs/refleks_format.go:176 | A full read takes exactly its bytes; a short one fails and leaves nothing |
| RunFile.Reader.EnsureEOF | internal/runs/refleks_format.go:487-500 | The end check passes exactly when no byte is left and the decoder reports a clean end |
| RunFile.ReadString | internal/runs/refleks_format.go:469-485 | A name is read with its size and at most the allowed bytes |
| RunFile.ParseStats | internal/runs/refleks_format.go:167-180 | The statistics section is its size, its bytes and the walk over them; the reader is left at the next section |
| RunFile.ParseMouseMetrics | internal/runs/refleks_format.go:288-312 | The mouse section checks size and count and then reads points within the announced size only |
| RunFile.ReadTrace | internal/runs/refleks_format.go:313-358 | The loop fails on a short trace and otherwise returns the metrics of exactly the points it consumed |
| RunFile.ParseEnvironment | internal/runs/refleks_format.go:360-373 | The environment section is its size, its bytes and the walk over them |
| RunFile.ParsePayloadStream | internal/runs/refleks_format.go:111-163 | The five sections in order, then the end of the data |
| RunFile.ParseRefleksFile | internal/runs/refleks_format.go:81-109 | Size, magic, version, checksum, then the payload, in that order of errors; what is returned is fixed value by value by RunFileFormat.FileAcceptedExactly |
| RunFileFormat.PayloadAcceptedExactly | internal/runs/refleks_format.go:111-163 | A payload is accepted with some contents exactly when it is, byte for byte, a layout with that meaning |
| RunFileFormat.PayloadCrashesExactly | internal/runs/refleks_format.go:111-145 | On any decoded stream, whole, cut off, corrupt or followed by more, the parser crashes exactly when the sections before the statistics or the environment are read, that section is whole, and its walk breaks |
| RunFileFormat.FileCrashesExactly | internal/runs/refleks_format.go:81-109 | The files on which the parser crashes: good header and checksum, and a payload that decodes to such a stream |
| RunFileFormat.PayloadSize | internal/runs/refleks_format.go:119-144 | An accepted payload is a layout consumed to its last byte: 4 bytes and the size for each section, the mouse section 4, or 8 and 20 for each point |
| RunFileFormat.MouseSizeAgrees | internal/runs/refleks_format.go:288-358 | A mouse section that is read takes 8 bytes and 20 for each point, never more than announced, and as much as announced exactly when the size is 4 plus 20 bytes a point |
| RunFileFormat.FileAcceptedExactly | internal/runs/refleks_format.go:81-109 | A file is accepted with a result exactly when it is header, accepted payload and checksum, with nothing else, and each value of the result is the one that the header or its section gives |
| RunFileFormat.DescribeReports | internal/runs/refleks_format.go:147-162 | Each value of the result by name: player, scenario, scores, times, trace, speed and mouse identifiers, each from its own section |
| RunFileFormat.FileRoundTrip | internal/runs/service_test.go:594-687 | Every written file parses to its epoch, version 2, name, last-written values and trace metrics, each under its own name |
| RunFileFormat.WrittenValues | internal/runs/refleks_format.go:426-432 | Text reads back trimmed, doubles bit for bit, varints by their low 32 bits, negative counts included |
| RunFileFormat.SummaryEntriesRoundTrip | internal/runs/refleks_format.go:228-286 | Typed statistics written as fields read back as themselves |
| RunFileFormat.EnvironmentEntriesRoundTrip | internal/runs/refleks_format.go:392-436 | A typed environment written as fields reads back as itself, its texts trimmed |
| RunFileFormat.TypedRoundTrip | internal/runs/service_test.go:594-687 | A file written from typed values parses to exactly those values, field by field: player, mouse and scenario texts trimmed, doubles bit for bit |
| Uploads.KeyDeterminesHash | internal/runs/service.go:398-405 | An object key determines the hash it was built for, whatever the prefix and the date |
| Uploads.CanonicalSpells | internal/runs/service.go:347-353 | A client's hash means the one hash whose 64 digits it spells, in either case, once trimmed |
| Uploads.ExtensionExactly | internal/runs/service.go:407-416 | Which names count as having the extension, and what becomes of the others |
| Uploads.IntegrityAlways | internal/runs/service.go:75-135 | In every interleaving with any failures, keys name the hash of the bytes stored under them and rows name keys of their own hash |
| Uploads.DownloadedBytesHaveTheHash | internal/runs/service.go:209-243 | Bytes served for a hash have that SHA-256, also when other clients move on between the lookup of the row and the fetch of the object |
| Uploads.NoOrphansAlways | internal/runs/service.go:93-135 | Every stored object is referenced by a row, held by a call past its put, or left by a failed put or delete |
| Uploads.QuietStoreHasNoOrphans | internal/runs/service.go:122-135 | With no call in flight every object is referenced or was left by a failed put or delete; with neither, every object is referenced |
| Uploads.CleanRunsLeakNothing | internal/runs/service.go:95-134 | Failed puts that store nothing and deletes that remove the object, whatever they report, leave no bytes behind |
| Uploads.OneWinnerPerHash | internal/runs/service.go:77-144 | A hash has a row exactly when some call for it ended as stored, and only one call did |
| Uploads.ExclusiveAlways | internal/runs/service.go:77-135 | While calls on a hash do not overlap, a call past its check is the only one that can commit its hash |
| Uploads.NoOverlapNoDangling | internal/runs/service.go:77-135 | While calls on a hash do not overlap, every row that names an object has it, whatever fails |
| Uploads.StoredFilesStayDownloadable | internal/runs/service.go:93-144 | While calls on a hash do not overlap, every call that ended as stored has its row, and if the row names an object, a download gives back the file byte for byte, in every later state |
| UploadOverlap.CanDangleExactly | internal/runs/service.go:93-135 | From a reachable state, the calls in flight can be scheduled to lose an object exactly when one of three hazards holds |
| UploadOverlap.NoOverlapNoHazard | internal/runs/service.go:77-135 | Calls that do not overlap make none of those hazards |
| UploadOverlap.TwoClientsLoseTheObject | internal/runs/service.go:130-135 | For every service with a store and every file that parses, two uploads of it can end with a row without its object |
| UploadOverlap.StoredFileLost | internal/runs/service.go:130-144 | With overlap, for every service with a store and every file that parses, a call can end as stored while its row names an object that a download does not find |
| UploadOverlap.SomeFileParses | internal/runs/refleks_format.go:81-109 | Such a file exists, whatever the checksum function |
| SyncService.Service.SyncOne | internal/runs/service.go:64-145 | A sync leaves the state and gives the result of playing its steps to the end; how each sync ends is SyncOutcomes.SyncEndsExactly |
| SyncOutcomes.SyncEndsExactly | internal/runs/service.go:64-145 | A file that parses, with or without a store: it fails exactly if a reply that the call uses is a failure, is a duplicate exactly if its hash is found at the check or at a successful insert, and is stored otherwise; and the rows and objects left behind, the new row field by field |
| SyncOutcomes.BadFilesLeaveNoTrace | internal/runs/service.go:65-72 | An empty file or one that does not parse is refused and leaves no trace |
| StoragePolicy.DecisionIsOnTheRow | internal/runs/service.go:149-170 | The decision on a parsed file is the one that the settings would take on its row: enabled, a player if required, a mouse trace if required |
| StoragePolicy.RowsFollowSettings | internal/runs/service.go:88-98 | Over any run, a row names an object only if there is a store and some answered settings admit the row, and names none only if there is no store or some answer refuses it |
| StoragePolicy.ConstantSettingsDecide | internal/runs/service.go:88-170 | While the settings stay the same, a row names an object exactly when there is a store and the settings admit the row |
| StoragePolicy.SwitchesHold | internal/runs/service.go:159-167 | A switch that every answer has on holds for all rows: no object for anonymous runs, for runs without a trace, or for any run |
| SyncService.Service.InsertOrCleanUp | internal/runs/service.go:100-145 | The insert with other clients' rows arriving before it, and the deletion after a conflict or an error; its ends are those of SyncOutcomes.SyncEndsExactly |
| SyncService.PlayIsRun | internal/runs/service.go:64-145 | For any rows that others commit meanwhile, one caller's sync is a run of the many-call machine in which only that call moves, with those rows arriving right before its insert |
| SyncService.StoredFilesDownload | internal/runs/service.go:137-144 | While other clients do nothing but commit rows, a file reported as stored was new, and right afterwards its object, if it has one, downloads byte for byte |
| SyncService.PlayRows | internal/runs/service.go:122-144 | A call adds the row of its hash, a new one, exactly if it ends as stored, and no other row but those that others commit meanwhile |
| BulkSync.HandleBulkSync | internal/runs/handler.go:134-174 | The loop passes through states, one for each part: a part that does not open, does not read or is too long keeps the state and is reported as failed, any other is synced in the state before it and reported as that sync ended; it stops exactly at the first part that brings the total over the limit or crashes the parser |
| BulkSync.BatchPasses | internal/runs/handler.go:134-174 | The fold of the parts passes through exactly such states |
| BulkSync.BatchInOrder | internal/runs/handler.go:137-169 | One result per part, in order: the hash and size of the part, or for a part that failed the name it was sent with; fewer only if the batch ended early |
| BulkSync.BatchRows | internal/runs/handler.go:157-168 | The rows grow by the hashes reported as stored, each new and reported once, and otherwise only by rows that others commit meanwhile |
| BulkSync.StoredCountIsGrowth | internal/runs/handler.go:157-168 | The number of stored results is the growth in rows, less the rows that others committed meanwhile |
| BulkSync.TooLargeSyncsAPrefix | internal/runs/handler.go:151-155 | A batch over the total leaves the state of its accepted prefix, whose bytes are within the total |
| Downloads.ExtensionStaysAttached | internal/runs/service.go:407-416 | A name that is not blank ends up with the extension, in any case, and extending it again changes nothing |
| Downloads.DownloadRaw | internal/runs/service.go:209-243 | Each of the five refusals has exactly one cause; anything else serves the bytes that the object named by the row of the hash spelled has when it is fetched, under the row's name with the extension, or under the hash |
| MissingHashes.LexTotal | internal/runs/service.go:342-343 | Byte order is total and asymmetric, so the sorted answer is determined |
| MissingHashes.LexExactly | internal/runs/service.go:342-343 | One text is before another exactly if at their first difference it ends or has the smaller byte |
| MissingHashes.NormalizeHashes | internal/runs/service.go:320-345 | Fails exactly on a non-blank entry that is not 64 hex digits; else the sorted, duplicate-free canonical values |
| MissingHashes.FindMissing | internal/runs/service.go:184-206 | The sorted hashes that the request spells and that have no row, and nothing else; refused exactly if an entry is neither blank nor 64 hex digits |
| MissingHashes.MissingDependsOnTheSet | internal/runs/service.go:184-206 | The answer depends only on the set of canonical values asked for |
| MissingHashes.RowsOnlyGrow | internal/runs/service.go:122-144 | No upload activity removes or changes a row |
| MissingHashes.MissingOnlyShrinks | internal/runs/service.go:193-205 | Between two identical requests, whatever is uploaded, no hash becomes missing |
| RunTables.Database.InsertRun | internal/runs/adapters/postgres_repository.go:352-432 | The transaction leaves all of its effects or none, whichever statement fails |
| RunTables.Database.EnsurePlayer | internal/runs/adapters/postgres_repository.go:434-453 | The player is created or renamed; an empty name keeps the stored one |
| RunTables.Database.EnsureScenario | internal/runs/adapters/postgres_repository.go:455-473 | The scenario exists afterwards under its name, or under "unknown" |
| RunTables.InsertBooks | internal/runs/adapters/postgres_repository.go:352-473 | A call fails exactly if a statement it comes to fails, is a duplicate exactly if the hash is there, and changes nothing in both cases; else the run refers to its player and scenario, by their trimmed names, the player is renamed and the scenario counts one more |
| RunTables.InsertsAccountForRuns | internal/runs/adapters/postgres_repository.go:352-473 | Over any inserts each scenario counts its runs, and players, names and scenarios reflect the committed runs only |
| RunTables.InsertRefinesProtocol | internal/runs/adapters/postgres_repository.go:414-431 | Seen by its rows, the transaction is the insert that the upload protocol assumes |
| LikePatterns.PlainMeansContains | internal/runs/adapters/postgres_repository.go:191 | Between two wildcards, a needle without special characters matches exactly the texts that contain it |
| LikePatterns.SpecialMatchesOtherText | internal/runs/adapters/postgres_repository.go:191 | A needle with a special character matches some text that does not contain it |
| LikePatterns.ContainsExactlyWhenPlain | internal/runs/adapters/postgres_repository.go:191-201 | The filter means "contains, ignoring case" for exactly the needles without special characters |
| ListQuery.QueryBuilder.AddArgClause | internal/runs/adapters/postgres_repository.go:182-185 | Clauses and arguments grow together, each clause with the number of its own argument |
| ListQuery.BuildQuery | internal/runs/adapters/postgres_repository.go:178-248 | The built clauses, arguments and positions are the compiled request |
| ListQuery.PlaceholdersExact | internal/runs/adapters/postgres_repository.go:182-248 | The placeholders are $1 to $n in order, each with an argument of its column's type; the last two are limit and offset |
| ListQuery.QueryMeansRequest | internal/runs/adapters/postgres_repository.go:187-236 | The conjunction is true of a row exactly when the row meets every filter; NULL fails a range |
| ListQuery.PlainQueryMeansContains | internal/runs/adapters/postgres_repository.go:190-206 | With plain needles, the text filters are containment ignoring case |
| PageWalk.NormalizeExactly | internal/runs/service.go:355-396 | Normalised requests are in range and right way up, and exactly those are left alone |
| PageWalk.NormalizeValues | internal/runs/service.go:355-396 | Each value of a normalised request: texts trimmed, limit 50 or at most 200, offset at least 0, bounds swapped if upside down |
| PageWalk.OrderIsTotal | internal/runs/adapters/postgres_repository.go:491-514 | Every sort key orders rows with distinct ids strictly and totally |
| PageWalk.ListFollowsItsSort | internal/runs/adapters/postgres_repository.go:491-514 | Any two rows of a list stand as the sort key says: its column and direction, NULLs last both ways, ids on ties |
| PageWalk.SelectedLists | internal/runs/adapters/postgres_repository.go:178-274 | Filtering and sorting list every row that meets the request, once, in order |
| PageWalk.ListIsUnique | internal/runs/adapters/postgres_repository.go:243-274 | There is only one such list, so pages of it do not depend on the database's choices |
| PageWalk.SelectedIgnoresPaging | internal/runs/adapters/postgres_repository.go:243-248 | The list does not depend on limit and offset |
| PageWalk.ListRuns | internal/runs/service.go:290-318 | Of the one list of the rows asked for: the rows from the offset on, at most limit of them, their count, the limit and offset as requested (50 if not positive, 200 if larger; 0 if negative), whether there are more, and the next offset exactly then |
| PageWalk.PagesAreRight | internal/runs/service.go:290-318 | The page is that page of every list of the rows asked for |
| PageWalk.FollowYieldsTheRest | internal/runs/service.go:312-315 | Following the next offsets terminates and yields exactly the rest of the list |
| PageWalk.WalkListsEveryRow | internal/runs/service.go:290-318 | From the start, the walk meets every row the request asks for, once each and in order |
| Sorting.SortSorts | internal/runs/service.go:342-343 | Sorting distinct elements gives a strictly sorted sequence of the same elements |
| Sorting.SortedUnique | internal/runs/service.go:342-343 | There is only one strictly sorted sequence of a set |
| GoMemory.AppendAppends | internal/benchmarks/adapters/postgres_repository.go:223 | An append adds one element to the contents, whether it is in place or moves |
| GoMemory.PointerSurvivesExactlyWithRoom | internal/benchmarks/adapters/postgres_repository.go:206-224 | A pointer into a slice survives an append with room; without room, what is stored through it is lost |
| GoMemory.StoreView | internal/benchmarks/adapters/postgres_repository.go:273-276 | Storing through one of several distinct pointers changes what that one points to, and nothing else |
| Grouping.OwnerOfDistinctIds | internal/benchmarks/adapters/postgres_repository.go:49-52 | With distinct ids, a foreign key leads to the parent that has it |
| Grouping.GroupIsFilter | internal/benchmarks/adapters/postgres_repository.go:210-225 | With distinct ids, a parent's group is the rows that carry its id, in row order |
| Grouping.ItemsAreFilter | internal/benchmarks/adapters/postgres_repository.go:210-225 | With distinct ids, the items of a parent are the rows that carry its id, in row order |
| Grouping.GroupUpdate | internal/benchmarks/adapters/postgres_repository.go:468-486 | Changing one element changes its own group at its place, and no other group |
| Attaching.CountRows | internal/benchmarks/adapters/postgres_repository.go:183-198 | The counts are the numbers of rows per foreign key |
| Attaching.Presize | internal/benchmarks/adapters/postgres_repository.go:201-207 | Each parent gets an array of its own with room for exactly its rows, in any order of the map |
| Attaching.KidInSlice | internal/benchmarks/adapters/postgres_repository.go:223-224 | Every child pointer lies in the live part of its parent's array, after its earlier siblings |
| Attaching.AppendRows | internal/benchmarks/adapters/postgres_repository.go:209-225 | No append needs a new array; slices, pointers and the id map hold each parent's rows in order |
| Attaching.Attach | internal/benchmarks/adapters/postgres_repository.go:156-228 | Children end up grouped under their parents, pointers stay live and distinct, and every array is exactly full |
| BenchmarkTree.RanksAreClean | internal/benchmarks/adapters/postgres_repository.go:264-277 | Every listed rank has a trimmed name that is not "no rank", and a colour; clean ranks are listed unchanged, in order |
| BenchmarkRows.RanksAreShown | internal/benchmarks/adapters/postgres_repository.go:264-277 | The listed ranks: names and colours trimmed, blank names and every spelling of "no rank" left out, #60a5fa for a blank colour |
| BenchmarkTree.PlaceExactly | internal/benchmarks/adapters/postgres_repository.go:389-404 | A link goes to the one right node: the last matching subcategory, else the last matching category, else the difficulty |
| BenchmarkTree.BelongsExactly | internal/benchmarks/adapters/postgres_repository.go:448-463 | A link belongs where its own category and subcategory names lead, trimmed and lower-cased, and that is where it is put |
| BenchmarkTree.SkeletonOfAll | internal/benchmarks/adapters/postgres_repository.go:448-463 | Adding scenarios never changes where later links go |
| BenchmarkTree.NodesHoldTheirLinks | internal/benchmarks/adapters/postgres_repository.go:468-486 | Every node gains exactly the scenarios of the links that belong there by their category and subcategory names, in row order |
| BenchmarkTree.LinksAreConserved | internal/benchmarks/adapters/postgres_repository.go:423-463 | The scenarios under a difficulty grow by exactly its links, as a multiset |
| BenchmarkTree.LinksLandOnce | internal/benchmarks/adapters/postgres_repository.go:386-463 | In the full view each node holds the scenarios of the links that belong there by their names and nothing else |
| BenchmarkTree.ProgressIsErasure | internal/benchmarks/adapters/postgres_repository.go:76-80 | Whenever the full view succeeds, the progress view is it with every scenario list emptied |
| BenchmarkLinks.IndexDifficulty | internal/benchmarks/adapters/postgres_repository.go:391-403 | The lookups lead to the last category and subcategory of each key, and other difficulties' entries stay |
| BenchmarkLinks.IndexHierarchy | internal/benchmarks/adapters/postgres_repository.go:389-405 | The lookups are right for every difficulty, in any order of the map |
| BenchmarkLinks.StoreCategory | internal/benchmarks/adapters/postgres_repository.go:477-484 | Storing through a category pointer changes one tree at one index |
| BenchmarkLinks.AppendScenario | internal/benchmarks/adapters/postgres_repository.go:468-486 | The append through a pointer adds the scenario at its right place in its difficulty's tree, and nowhere else |
| BenchmarkLinks.AttachScenarioLinks | internal/benchmarks/adapters/postgres_repository.go:386-466 | Fails exactly on malformed thresholds of a listed difficulty's link; else every tree has its own links placed in row order, each where its names lead |
| BenchmarkBuilder.AttachRanks | internal/benchmarks/adapters/postgres_repository.go:230-281 | Each difficulty gains its cleaned ranks in row order, blank ones and "no rank" left out |
| BenchmarkBuilder.AttachSubcategories | internal/benchmarks/adapters/postgres_repository.go:349-384 | Each category gains its subcategories in row order, and no array moves |
| BenchmarkBuilder.Grow | internal/benchmarks/adapters/postgres_repository.go:58-74 | With ranks, categories and subcategories attached, reading the slices gives the bare grouping of the difficulties |
| BenchmarkBuilder.ReadBenchmarks | internal/benchmarks/adapters/postgres_repository.go:40-83 | Reading the slices back gives the grouping of the trees by benchmark |
| BenchmarkBuilder.ListBenchmarks | internal/benchmarks/adapters/postgres_repository.go:40-83 | What the in-place building returns is the pure grouping of the rows, in both views; with ids that are keys it shows every table row by row under its parent, with ranks and links in place, and it fails exactly in the full view on a malformed link of a listed difficulty |
| BenchmarkRows.HierarchyShowsTheRows | internal/benchmarks/adapters/postgres_repository.go:40-83 | The grouping shows every benchmark, difficulty, rank, category, subcategory and link by the keys in the rows alone |

## Left out

- HTTP requests and responses, JSON and multipart encoding, routing, middleware, authentication, server configuration, status and statistics endpoints.
- The players, scenarios and leaderboards pages: they repeat the page logic of the run list.
- ETag matching of the benchmark list, and the search filter on benchmark rows.
- IEEE rounding, infinities and NaN: filter bounds and sort keys are real numbers, and speeds are exact quotients of real sums.
- A reader that returns its last byte together with an end-of-file error: the end check of such a reader would accept one trailing byte, while the modelled reader reports the end on a read of its own. The in-memory reader behaves as modelled; what the zstd decoder does is not part of this model.
- NULL object keys: a row without an object has the empty key, as the service expects. The adapter stores NULL and scans it into a plain string, which is not modelled. It also trims the object key and the two mouse identifiers once more before storing them.
- Downloads.DownloadRaw: the body is a value instead of a stream, and the download URL variant with its expiry is left out.
- Lower-casing of hashes is ASCII only. It accepts the same hashes as Go's, since no other character maps to a hex digit. For the file extension the one other character that matters, the Kelvin sign, is modelled.
- Uploads.DownloadedBytesHaveTheHash: a process that dies in the middle of a call is a call that never advances again; nothing models a restart that repairs it.
- RunTables.Database.InsertRun: transactions are serial. Row locks, isolation levels, sequence gaps after a rollback and the `updated_at` columns are left out, and the run hash is the only unique key, as in the in-memory repository of the service tests.
- SyncService.StoredFilesDownload: in `SyncService.dfy` other clients only commit rows while a call runs. They cannot delete or replace its object, so an overlapping call that loses and deletes the object is not in this lemma; over the machine the promise is `Uploads.StoredFilesStayDownloadable`, and `UploadOverlap.StoredFileLost` is the run that breaks it.
- SyncService.PlayIsRun: the rows of other clients arrive as given, before the insert; that some calls of the machine would commit just those rows is not part of the statement.
- BulkSync.TooLargeSyncsAPrefix: the reader bound is stated on lengths; the overflow of max+1 at the largest 64-bit value is left out.
- LikePatterns.ContainsExactlyWhenPlain: case folding is any character map that fixes the special characters and the letter a; collations that fold several characters at once are left out.
- PageWalk.ListRuns: the rows are those of a fixed table; concurrent inserts between pages are left out.
- Attaching.Attach: fields that the source never points into while they grow (ranks, scenario lists, subcategories) are plain sequences inside their cells; a subcategory pointer is a category pointer with an index.
- BenchmarkBuilder.ListBenchmarks: a failing query returns its error and nothing else, and is not modelled; malformed thresholds are.
