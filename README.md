# Azkaban execution-state store and custom dates, modelled in Dafny

This project models two parts of an Azkaban fork:

- **The JDBC executor loader** (`JdbcExecutorLoader`). It is the store where the web
  server and the executors keep the state of flow executions. It has four tables:
  - `execution_flows`: one row per execution, holding the serialised flow in
    `flow_data`;
  - `active_executing_flows`: which executor owns a running execution;
  - `execution_jobs`: one row per job attempt, holding its input and output
    properties;
  - `execution_logs`: log files cut into 50 KiB chunks, optionally gzip-compressed,
    and tagged with the rerun generation (`rerun_time`) that wrote them.
- **The custom-date helper** (`CustomDateUtil`). It fills a job's properties with
  date strings (`custom.day`, `custom.hour`, `custom.minute`, `custom.last.hour`,
  `custom.last.day`). It also resolves a flow's custom-time flag to the
  `custom.time` string.

The files are:

- `common.dfy` (module `Common`): bytes, `Option`, `Result`, `Outcome`, the error
  kinds, and Java's narrowing cast `(int)`.
- `codec.dfy` (module `Codec`): the encoding tag (`PLAIN` = 1, `GZIP` = 2). It also
  holds reversible stand-ins for gzip and JSON, with their round trips proved.
- `flows.dfy` (module `Flows`): status codes, the flow value, property bags, and how
  the payloads are encoded and decoded.
- `logchunks.dfy` (module `LogChunks`): two specifications and the proofs that
  connect them.
  - The writer side: the stream is cut into rows.
  - The reader side: the latest generation is chosen, rows are selected and ordered
    by `start_byte`, sliced and assembled.
  - The proofs: writing a stream and reading any window of it gives back exactly
    the stream's bytes in that window.
- `history.dfy` (module `FlowHistory`): the dynamic filter query of the
  eight-argument `fetchFlowHistory`.
- `loader.dfy` (module `ExecutorLoader`): the class `JdbcExecutorLoader`.
  - Each table is a sequence-valued field.
  - Each statement is a method that reassigns the table it touches.
  - Each result-set handler is a loop proved against a decoding function.
  - The chunked log upload works on a 50 KiB `array` buffer, as the source does.
- `customdate.dfy` (module `CustomDate`): the calendar arithmetic and the
  `yyyyMMdd`-style formatting. It also holds `getCustomTime`, the `Props` class and
  the two writers `customDate` and `customTime`.

Two cases are decided by the code where one might expect otherwise; the model follows
the code:

- When no log row matches a job attempt, `max(rerun_time)` is NULL. The handler then
  reads it as generation 0 and does not raise an error.
- `fetchJobStartEndTime` looks rows up by a key that can differ from the key they
  were written under. The model takes that key as a parameter.

## Model

| member | source | states |
|---|---|---|
| Common.Int32 | src/java/azkaban/executor/JdbcExecutorLoader.java:117 | the `(int)` cast of the inserted id keeps the value of any id in the 32-bit range and otherwise agrees with it modulo 2^32 |
| Codec.FromInteger | src/java/azkaban/executor/JdbcExecutorLoader.java:1068 | a stored tag reads as GZIP exactly when it is GZIP's number; every other tag reads as PLAIN |
| Codec.FromIntegerNumVal | src/java/azkaban/executor/JdbcExecutorLoader.java:183 | the number written for an encoding reads back as that encoding |
| Codec.GzipRoundTrip | src/java/azkaban/executor/JdbcExecutorLoader.java:167-168 | inflating compressed bytes gives the original bytes back |
| Codec.UnGzipBytes | src/java/azkaban/executor/JdbcExecutorLoader.java:1082-1083 | inflation fails exactly on a blob without the gzip header; when it succeeds, compressing its output gives the blob back |
| Codec.JsonRoundTrip | src/java/azkaban/executor/JdbcExecutorLoader.java:155 | parsing the JSON text of an object's fields gives the same fields back |
| Codec.DecodeBlob | src/java/azkaban/executor/JdbcExecutorLoader.java:1081-1084 | a reader inflates a blob exactly when its tag is GZIP's and otherwise takes the stored bytes as they are |
| Codec.BlobRoundTrip | src/java/azkaban/executor/JdbcExecutorLoader.java:887-893 | a chunk stored under either encoding decodes, under the tag stored with it, to its bytes |
| Flows.StatusRoundTrip | src/java/azkaban/executor/JdbcExecutorLoader.java:179 | the number stored for a status reads back as that status |
| Flows.StatusNumInjective | src/java/azkaban/executor/JdbcExecutorLoader.java:179 | two statuses stored under the same number are the same status |
| Flows.FlowFromFields | src/java/azkaban/executor/JdbcExecutorLoader.java:1398-1399 | building a flow from an object fails exactly on an object without the flow's shape; when it succeeds, the flow's object is the one read |
| Flows.FlowFieldsRoundTrip | src/java/azkaban/executor/JdbcExecutorLoader.java:155 | building a flow from the object it writes gives the same flow |
| Flows.EncodeFlowData | src/java/azkaban/executor/JdbcExecutorLoader.java:162-169 | `flow_data` is the gzip of the flow's JSON under GZIP and the JSON bytes themselves under PLAIN |
| Flows.FlowDataRoundTrip | src/java/azkaban/executor/JdbcExecutorLoader.java:1380-1399 | decoding `flow_data` under its stored tag gives back the flow that was written, for both encodings |
| Flows.PropsFieldsRoundTrip | src/java/azkaban/executor/JdbcExecutorLoader.java:506-507 | a property bag rebuilt from its hierarchical map is the same bag |
| Flows.PropsRoundTrip | src/java/azkaban/executor/JdbcExecutorLoader.java:1240-1248 | a stored input or output property blob decodes to the bag that was stored |
| LogChunks.SplitCount | src/java/azkaban/executor/JdbcExecutorLoader.java:811-856 | a stream of n bytes is stored in ceil(n / 51200) rows |
| LogChunks.SplitContiguous | src/java/azkaban/executor/JdbcExecutorLoader.java:824-832 | the first row starts at the stream's start, and each row starts where the previous one ends |
| LogChunks.SplitSizes | src/java/azkaban/executor/JdbcExecutorLoader.java:817-856 | every row but the last holds exactly 51200 bytes, and the last holds between 1 and 51200 |
| LogChunks.SplitPayloads | src/java/azkaban/executor/JdbcExecutorLoader.java:811-856 | the payloads of the rows, in order, concatenate to the whole stream |
| LogChunks.SplitAppend | src/java/azkaban/executor/JdbcExecutorLoader.java:843-856 | a stream that ends in a partial window is stored as the rows of its full windows followed by one final row for the remainder |
| LogChunks.ChunkRows | src/java/azkaban/executor/JdbcExecutorLoader.java:895-906 | one row is inserted per chunk |
| LogChunks.ChunkRowsDecode | src/java/azkaban/executor/JdbcExecutorLoader.java:895-906 | each stored row records its chunk's start, ends at start plus the chunk's length, and its blob decodes to the chunk's bytes |
| LogChunks.ChunkRowsStartFrom | src/java/azkaban/executor/JdbcExecutorLoader.java:808-832 | the rows of one upload start at or after its first byte and are in `start_byte` order |
| LogChunks.MaxJobRerun | src/java/azkaban/executor/JdbcExecutorLoader.java:1019-1021 | the aggregate is NULL exactly when no row has the job's key; otherwise it is the largest generation among those rows and is attained by one of them |
| LogChunks.MaxExecutionRerun | src/java/azkaban/executor/JdbcExecutorLoader.java:979 | the aggregate is NULL exactly when no row has the execution's id; otherwise it is the largest generation among those rows |
| LogChunks.JobMaxRerunHandler | src/java/azkaban/executor/JdbcExecutorLoader.java:1024-1029 | fails exactly on an empty result set; otherwise gives the first value, with NULL read as 0 |
| LogChunks.ExecutionMaxRerunHandler | src/java/azkaban/executor/JdbcExecutorLoader.java:982-987 | gives 0 for an empty result set; otherwise gives the first value, with NULL read as 0 |
| LogChunks.JobMaxRerunAlwaysAnswers | src/java/azkaban/executor/JdbcExecutorLoader.java:709-710 | the job's max-rerun query never takes the handler's error path; it gives the latest generation, or 0 when the job has no rows |
| LogChunks.ExecutionMaxRerunIsMax | src/java/azkaban/executor/JdbcExecutorLoader.java:977-1007 | the execution's generation bounds every row of the execution, and is 0 when there are none |
| LogChunks.MaxJobRerunAppend | src/java/azkaban/executor/JdbcExecutorLoader.java:1019-1021 | the largest generation over two sets of rows is the larger of their largest generations |
| LogChunks.SelectLogsMembers | src/java/azkaban/executor/JdbcExecutorLoader.java:1034-1038 | the query selects exactly the rows of the key and generation that end after the window's start and start at or before its end |
| LogChunks.SelectLogsAppend | src/java/azkaban/executor/JdbcExecutorLoader.java:1034-1038 | selecting from two sets of rows is selecting from each, in table order |
| LogChunks.InsertByStart | src/java/azkaban/executor/JdbcExecutorLoader.java:1038 | inserting a row into rows ordered by `start_byte` keeps them ordered and adds exactly that row |
| LogChunks.SortByStart | src/java/azkaban/executor/JdbcExecutorLoader.java:1038 | `ORDER BY start_byte` gives the same rows as a multiset, ordered by `start_byte` |
| LogChunks.SortSortedIsIdentity | src/java/azkaban/executor/JdbcExecutorLoader.java:1038 | ordering rows that are already ordered leaves them as they are |
| LogChunks.SelectKeepsSorted | src/java/azkaban/executor/JdbcExecutorLoader.java:1034-1038 | selection keeps rows that are ordered by `start_byte` in order |
| LogChunks.SliceArithmetic | src/java/azkaban/executor/JdbcExecutorLoader.java:1074-1079 | for a selected row, offset and length stay inside the row, and the slice covers the intersection of the row with the requested window |
| LogChunks.SliceOf | src/java/azkaban/executor/JdbcExecutorLoader.java:1068-1090 | a row's slice is taken only from a blob that decodes under the row's tag |
| LogChunks.AssembleAppend | src/java/azkaban/executor/JdbcExecutorLoader.java:1063-1091 | the stream assembled from two runs of rows is the two assembled streams joined, and the first failure wins |
| LogChunks.AssemblePrefixFailure | src/java/azkaban/executor/JdbcExecutorLoader.java:1080-1090 | once a row fails to decode or slice, the handler fails with that error whatever rows follow |
| LogChunks.TrimmedLog | src/java/azkaban/executor/JdbcExecutorLoader.java:1093-1100 | the result is defined exactly when the UTF-8 range lies inside the assembled bytes; it is then offset by the requested start, and holds those bytes |
| LogChunks.NoRowsNoData | src/java/azkaban/executor/JdbcExecutorLoader.java:700-722 | fetching the logs of a job with no rows at all gives null |
| LogChunks.ChunkRowSlice | src/java/azkaban/executor/JdbcExecutorLoader.java:1074-1086 | slicing a written row by a window it meets gives exactly its chunk's bytes inside the window |
| LogChunks.ReadBackChunks | src/java/azkaban/executor/JdbcExecutorLoader.java:1032-1091 | assembling the rows an upload wrote, selected for any window, gives exactly the stream's bytes inside that window |
| LogChunks.SelectChunksNonEmpty | src/java/azkaban/executor/JdbcExecutorLoader.java:1037-1038 | a window that starts inside a written stream selects at least one of its rows |
| LogChunks.OlderGenerationsIgnored | src/java/azkaban/executor/JdbcExecutorLoader.java:1037 | rows of older generations are never selected when a newer generation is read |
| LogChunks.MaxRerunAfterWrite | src/java/azkaban/executor/JdbcExecutorLoader.java:710 | after an upload in a newer generation, the job's max-rerun query gives that generation |
| LogChunks.ReaderSeesLatestWrite | src/java/azkaban/executor/JdbcExecutorLoader.java:710-722 | after an upload in a newer generation, the rows read are exactly the new upload's rows for the window |
| LogChunks.ReadWindowOfWrite | src/java/azkaban/executor/JdbcExecutorLoader.java:1034-1091 | reading a window that starts inside an uploaded stream assembles the stream's bytes from that start to the window's or the stream's end |
| LogChunks.HandleAfterWrite | src/java/azkaban/executor/JdbcExecutorLoader.java:1056-1101 | the handler, given an upload's selected rows, returns the expected window of the stream or null |
| LogChunks.FetchAfterWrite | src/java/azkaban/executor/JdbcExecutorLoader.java:700-722 | after an upload in a newer generation, `fetchLogs` runs the handler over the new upload's rows only |
| LogChunks.ChunksThenRead | src/java/azkaban/executor/JdbcExecutorLoader.java:700-729 | over the chunk rows of an upload in a newer generation, before they are stamped with upload times, `fetchLogs` gives the window of the stream that `WriteThenRead` states |
| LogChunks.FetchLogsIgnoresUploadTime | src/java/azkaban/executor/JdbcExecutorLoader.java:1034-1038 | two tables that differ only in `upload_time` give the same `fetchLogs` result, because neither the max-rerun query nor the log query reads that column |
| LogChunks.WriteThenRead | src/java/azkaban/executor/JdbcExecutorLoader.java:700-729 | after a log upload in a newer generation, with each part stamped by its own clock reading, `fetchLogs(startByte, length)` gives null when `startByte` is at or past the stream's end; otherwise it gives the stream's bytes from `startByte` to the window's or the stream's end, trimmed by the UTF-8 range and offset by `startByte` |
| LogChunks.KeepUploadedSince | src/java/azkaban/executor/JdbcExecutorLoader.java:1433-1434 | the rows kept are exactly the rows uploaded at or after the cut-off |
| LogChunks.RetentionCount | src/java/azkaban/executor/JdbcExecutorLoader.java:1431-1448 | the count returned is the number of rows removed |
| LogChunks.RetentionByPart | src/java/azkaban/executor/JdbcExecutorLoader.java:1433-1434 | part k of an upload survives the retention delete exactly when its own upload time is at or after the cut-off, so the delete can remove the early parts of an upload and keep the later ones |
| FlowHistory.Extend | src/java/azkaban/executor/JdbcExecutorLoader.java:359-418 | a further filter appends its text and one placeholder, after ` WHERE ` when it is the first filter and after ` AND ` otherwise; the project filter brings its own join and WHERE; its parameter is appended to the parameters |
| FlowHistory.FilterBlock | src/java/azkaban/executor/JdbcExecutorLoader.java:359-370 | one filter block adds its condition exactly when the filter is given, and keeps the query, the parameters and the `first` flag in step with the conditions so far |
| FlowHistory.TextFilters | src/java/azkaban/executor/JdbcExecutorLoader.java:349-382 | the project, flow and user blocks add exactly the given text filters, in that order |
| FlowHistory.NumericFilters | src/java/azkaban/executor/JdbcExecutorLoader.java:384-418 | the status, start-time and end-time blocks add exactly the non-zero or positive filters, in that order |
| FlowHistory.AppendPaging | src/java/azkaban/executor/JdbcExecutorLoader.java:420-424 | paging is appended, with `skip` then `num` as parameters, exactly when `skip > -1` and `num > 0` |
| FlowHistory.BuildFlowHistoryQuery | src/java/azkaban/executor/JdbcExecutorLoader.java:340-424 | the query and parameters built are the rendering of the present filters in source order, followed by paging when requested |
| FlowHistory.RenderHoles | src/java/azkaban/executor/JdbcExecutorLoader.java:353-418 | the rendered filters hold one `?` per present filter |
| FlowHistory.PagingHoles | src/java/azkaban/executor/JdbcExecutorLoader.java:421 | the paging clause holds two `?` |
| FlowHistory.PlaceholdersMatchParams | src/java/azkaban/executor/JdbcExecutorLoader.java:349-424 | the built query holds exactly as many `?` as there are parameters |
| FlowHistory.ParamsInConditionOrder | src/java/azkaban/executor/JdbcExecutorLoader.java:353-417 | the k-th parameter is the value of the k-th present filter |
| FlowHistory.ProjectFilterComesFirst | src/java/azkaban/executor/JdbcExecutorLoader.java:353-357 | the project filter, which brings the join and its own WHERE, is the first condition exactly when a project is given, and no later condition is a project filter |
| FlowHistory.PagingParamsLast | src/java/azkaban/executor/JdbcExecutorLoader.java:420-424 | when paging, the last two parameters are `skip` and `num`, after every filter value |
| FlowHistory.LikeParamsWrapValue | src/java/azkaban/executor/JdbcExecutorLoader.java:353-382 | each text filter's parameter is its value wrapped in `%` on both sides |
| ExecutorLoader.InsertedFlowRow | src/java/azkaban/executor/JdbcExecutorLoader.java:85-107 | the inserted row has the new id and the PREPARING status, has `submit_time` and `update_time` both equal to the insertion time, and has no payload |
| ExecutorLoader.UpdateFlowRowsAgree | src/java/azkaban/executor/JdbcExecutorLoader.java:149-185 | after the update, the payload of each row of the flow's id decodes to the flow, and its status and time columns agree with the flow; rows of other ids are unchanged |
| ExecutorLoader.UploadThenFetch | src/java/azkaban/executor/JdbcExecutorLoader.java:68-124 | when the id is fresh and fits a Java int, fetching the id that an upload assigned gives back exactly the uploaded flow |
| ExecutorLoader.UpdateKeepsFlowCount | src/java/azkaban/executor/JdbcExecutorLoader.java:243-256 | updating a flow's payload does not change how many executions a flow is counted to have |
| ExecutorLoader.InsertFlowCount | src/java/azkaban/executor/JdbcExecutorLoader.java:85-108 | inserting an execution adds one to the count of its project and flow, and leaves every other count alone |
| ExecutorLoader.UploadNodeCount | src/java/azkaban/executor/JdbcExecutorLoader.java:496-536 | uploading a node adds one to the count of its project and job, and leaves every other count alone |
| ExecutorLoader.UpdateNodeKeepsCount | src/java/azkaban/executor/JdbcExecutorLoader.java:539-575 | updating a node's end state changes no count of job rows |
| ExecutorLoader.DecodeFlowListCount | src/java/azkaban/executor/JdbcExecutorLoader.java:1369-1409 | a decoded list holds one flow per row with a payload |
| ExecutorLoader.DecodeWrittenFlows | src/java/azkaban/executor/JdbcExecutorLoader.java:1369-1409 | decoding rows as the update writes them gives back the flows written, in order |
| ExecutorLoader.DecodeFlowListFailure | src/java/azkaban/executor/JdbcExecutorLoader.java:1383-1404 | a payload that cannot be decoded fails the whole list, whatever rows follow |
| ExecutorLoader.DecodeActiveMapKeys | src/java/azkaban/executor/JdbcExecutorLoader.java:1288-1338 | the active map's keys are exactly the ids of the joined rows |
| ExecutorLoader.DecodeActiveMapSuccess | src/java/azkaban/executor/JdbcExecutorLoader.java:1310-1333 | the active map is built exactly when every non-null payload of the joined rows decodes |
| ExecutorLoader.DecodeActiveMapEntry | src/java/azkaban/executor/JdbcExecutorLoader.java:1299-1331 | the entry of each id is decided by the last joined row of that id: null when that row's payload is null, and otherwise that row's host, port and update time paired with its decoded flow |
| ExecutorLoader.ActiveAfterUpdate | src/java/azkaban/executor/JdbcExecutorLoader.java:1280-1331 | after the update writes a flow, the active map has the flow's id exactly when a row of the id exists and an executor owns it; the id then maps to that flow and to one of the execution's references |
| ExecutorLoader.DecodeActiveMapFailure | src/java/azkaban/executor/JdbcExecutorLoader.java:1310-1333 | a payload that cannot be decoded fails the whole map, whatever rows follow |
| ExecutorLoader.FlowRowsOf | src/java/azkaban/executor/JdbcExecutorLoader.java:1348-1350 | the flow-by-id query selects exactly the rows of that id |
| ExecutorLoader.FirstJobRow | src/java/azkaban/executor/JdbcExecutorLoader.java:1227-1229 | the property handlers read the first row of the job's key, or none when the key has no row |
| ExecutorLoader.FetchJobProps | src/java/azkaban/executor/JdbcExecutorLoader.java:657-672 | the pair read for a job succeeds exactly when both columns decode, and holds the input and the output properties |
| ExecutorLoader.InputPropsRoundTrip | src/java/azkaban/executor/JdbcExecutorLoader.java:496-536 | when no earlier row has the node's execution and job ids, reading input properties gives null before the upload; after it, they give the uploaded properties, or null when they were uploaded as null. The condition is needed because the query ignores the attempt and reads the first row (1217-1223) |
| ExecutorLoader.OutputPropsRoundTrip | src/java/azkaban/executor/JdbcExecutorLoader.java:539-575 | when no earlier row has the node's execution and job ids, reading output properties after the node is uploaded and then updated gives the node's output properties |
| ExecutorLoader.JobStartEndTime | src/java/azkaban/executor/JdbcExecutorLoader.java:1450-1496 | null exactly when no row has the key; otherwise the start and end time of a row that has the key |
| ExecutorLoader.WithoutReference | src/java/azkaban/executor/JdbcExecutorLoader.java:461-473 | deleting a reference keeps exactly the references of other executions |
| ExecutorLoader.TouchOnlyThatReference | src/java/azkaban/executor/JdbcExecutorLoader.java:476-493 | the heartbeat update changes only the update time, and only of that execution's references |
| ExecutorLoader.CountReferences | src/java/azkaban/executor/JdbcExecutorLoader.java:484-492 | the update count is positive exactly when the execution has a reference |
| ExecutorLoader.IntHandler | src/java/azkaban/executor/JdbcExecutorLoader.java:1422-1427 | a count query gives 0 for an empty result set and the first value otherwise |
| ExecutorLoader.ReadSize | src/java/azkaban/executor/JdbcExecutorLoader.java:815-839 | a read returns -1 exactly at the end of the file, and otherwise between 1 and the free space of the buffer |
| ExecutorLoader.FlushStep | src/java/azkaban/executor/JdbcExecutorLoader.java:817-833 | flushing a full buffer stores one full row, stamped with the next clock reading, and restores the writer's invariant at the next window |
| ExecutorLoader.FinalStep | src/java/azkaban/executor/JdbcExecutorLoader.java:843-856 | after the last file, the final partial buffer, if any, stamped with the next clock reading, completes the rows of the whole stream |
| ExecutorLoader.ReadInto | src/java/azkaban/executor/JdbcExecutorLoader.java:815 | a read copies the next bytes of the file into the buffer's free space and moves the file position past them |
| ExecutorLoader.JdbcExecutorLoader.constructor | src/java/azkaban/executor/JdbcExecutorLoader.java:48-52 | a new store is empty, and its default encoding is GZIP |
| ExecutorLoader.JdbcExecutorLoader.SetDefaultEncodingType | src/java/azkaban/executor/JdbcExecutorLoader.java:58-60 | sets the encoding later writes use, and nothing else |
| ExecutorLoader.JdbcExecutorLoader.InsertExecutableFlow | src/java/azkaban/executor/JdbcExecutorLoader.java:85-108 | appends the inserted row under the next id, and keeps the store's invariant that ids are unique and below the counter |
| ExecutorLoader.JdbcExecutorLoader.LastInsertId | src/java/azkaban/executor/JdbcExecutorLoader.java:965-975 | gives the id of the last inserted row, and -1 when there is none |
| ExecutorLoader.JdbcExecutorLoader.UpdateExecutableFlow | src/java/azkaban/executor/JdbcExecutorLoader.java:146-191 | rewrites the rows of the flow's id and leaves the other tables unchanged |
| ExecutorLoader.JdbcExecutorLoader.UploadExecutableFlow | src/java/azkaban/executor/JdbcExecutorLoader.java:68-124 | fails, with the row inserted, exactly when the id read back is -1; otherwise it returns the flow as PREPARING with the id cast to int, and writes its payload over the new row. When the id fits a Java int, fetching it afterwards gives back exactly the returned flow |
| ExecutorLoader.JdbcExecutorLoader.FetchExecutableFlow | src/java/azkaban/executor/JdbcExecutorLoader.java:195-208 | gives the first flow decoded from the id's rows; it fails when a payload does not decode or no flow is found |
| ExecutorLoader.JdbcExecutorLoader.FetchExecutableFlows | src/java/azkaban/executor/JdbcExecutorLoader.java:1369-1410 | the handler's loop computes the decoded list of the result set |
| ExecutorLoader.JdbcExecutorLoader.FetchActiveFlows | src/java/azkaban/executor/JdbcExecutorLoader.java:211-226 | decodes the inner join of flows and references |
| ExecutorLoader.JdbcExecutorLoader.FetchActiveExecutableFlows | src/java/azkaban/executor/JdbcExecutorLoader.java:1288-1338 | the handler's loop succeeds exactly when every non-null payload decodes. Its keys are then the ids of the rows. Each id maps to what the last row of that id says: null for a null payload, and otherwise that row's reference paired with its decoded flow |
| ExecutorLoader.JdbcExecutorLoader.FetchNumExecutableFlows | src/java/azkaban/executor/JdbcExecutorLoader.java:229-240 | gives the number of executions |
| ExecutorLoader.JdbcExecutorLoader.FetchNumFlowExecutions | src/java/azkaban/executor/JdbcExecutorLoader.java:243-256 | gives the number of executions of the project's flow |
| ExecutorLoader.JdbcExecutorLoader.FetchNumExecutableNodes | src/java/azkaban/executor/JdbcExecutorLoader.java:259-272 | gives the number of job rows of the project's job |
| ExecutorLoader.JdbcExecutorLoader.AddActiveExecutableReference | src/java/azkaban/executor/JdbcExecutorLoader.java:439-458 | appends the reference, and nothing else changes |
| ExecutorLoader.JdbcExecutorLoader.RemoveActiveExecutableReference | src/java/azkaban/executor/JdbcExecutorLoader.java:461-473 | afterwards no reference of the execution remains, and the others are kept |
| ExecutorLoader.JdbcExecutorLoader.UpdateExecutableReference | src/java/azkaban/executor/JdbcExecutorLoader.java:476-493 | returns true exactly when the execution had a reference, and sets the update time of its references |
| ExecutorLoader.JdbcExecutorLoader.UploadExecutableNode | src/java/azkaban/executor/JdbcExecutorLoader.java:496-536 | appends the node's job row with its input properties encoded |
| ExecutorLoader.JdbcExecutorLoader.UpdateExecutableNode | src/java/azkaban/executor/JdbcExecutorLoader.java:539-575 | rewrites the times, the status and the output properties of the rows with the node's key |
| ExecutorLoader.JdbcExecutorLoader.UploadLogPart | src/java/azkaban/executor/JdbcExecutorLoader.java:870-907 | appends one row holding the first `length` bytes of the buffer, encoded under the tag's encoding, with the upload time read from the clock for this part |
| ExecutorLoader.JdbcExecutorLoader.WriteFile | src/java/azkaban/executor/JdbcExecutorLoader.java:814-840 | reading one file through the buffer keeps the writer's invariant: the rows stored, followed by the buffered bytes, are the stream read so far |
| ExecutorLoader.JdbcExecutorLoader.Absorb | src/java/azkaban/executor/JdbcExecutorLoader.java:816-838 | absorbing one read either flushes a full buffer or advances the position, and keeps the writer's invariant |
| ExecutorLoader.JdbcExecutorLoader.UploadLogFile | src/java/azkaban/executor/JdbcExecutorLoader.java:775-867 | appends exactly the rows of the concatenated files cut into 50 KiB chunks, each tagged with the execution, job, attempt, encoding and generation; the k-th part carries the k-th clock reading as its upload time |
| ExecutorLoader.JdbcExecutorLoader.FetchLogs | src/java/azkaban/executor/JdbcExecutorLoader.java:700-729 | reads the window from the latest generation of the job's rows, as the log-reading specification says |
| ExecutorLoader.JdbcExecutorLoader.FetchExecutionMaxRerunTime | src/java/azkaban/executor/JdbcExecutorLoader.java:993-1015 | gives the largest generation logged for the execution, or 0 when none is |
| ExecutorLoader.JdbcExecutorLoader.HandleLogs | src/java/azkaban/executor/JdbcExecutorLoader.java:1056-1101 | the handler's loop computes the assembled and trimmed log data of the result set |
| ExecutorLoader.JdbcExecutorLoader.SliceRow | src/java/azkaban/executor/JdbcExecutorLoader.java:1067-1090 | the per-row step computes the row's slice |
| ExecutorLoader.JdbcExecutorLoader.RemoveExecutionLogsByTime | src/java/azkaban/executor/JdbcExecutorLoader.java:1431-1448 | deletes exactly the rows uploaded before the cut-off, and returns their number |
| CustomDate.HourBack | src/java/azkaban/utils/CustomDateUtil.java:35 | stepping back one hour moves to the previous hour of the day, and to the previous day when the hour was 0 |
| CustomDate.DayBack | src/java/azkaban/utils/CustomDateUtil.java:38 | stepping back one day moves to the previous day and keeps the hour and the minute |
| CustomDate.CivilRoundTrip | src/java/azkaban/utils/CustomDateUtil.java:23-24 | the calendar date of a day number counts back to that day number |
| CustomDate.DaysRoundTrip | src/java/azkaban/utils/CustomDateUtil.java:23-24 | the day number of a valid date converts back to that date |
| CustomDate.FieldsOf | src/java/azkaban/utils/CustomDateUtil.java:23-24 | the calendar fields of an instant form a valid date, an hour below 24 and a minute below 60 |
| CustomDate.FieldsCountMinutes | src/java/azkaban/utils/CustomDateUtil.java:23-24 | the day number, hour and minute of an instant count exactly its local minutes |
| CustomDate.DayBeforeIsPreviousDate | src/java/azkaban/utils/CustomDateUtil.java:38 | the day before a date is the previous calendar date, across month and year ends |
| CustomDate.PadRoundTrip | src/java/azkaban/utils/CustomDateUtil.java:27-29 | a zero-padded field reads back as its value, and has exactly the field's width when the value fits |
| CustomDate.RenderAppend | src/java/azkaban/utils/CustomDateUtil.java:27-29 | formatting a pattern made of two parts is formatting each part in turn |
| CustomDate.FormatsNest | src/java/azkaban/utils/CustomDateUtil.java:27-33 | the day text begins the hour text, which begins the minute text; for years 1 to 9999 they are 8, 10 and 12 digits long, and their digit groups read back as the local year, month, day, hour and minute |
| CustomDate.BlankMeansSpaces | src/java/azkaban/utils/CustomDateUtil.java:74 | a flag is blank after trimming exactly when all of its characters are at most a space |
| CustomDate.GetCustomTimeOutcomes | src/java/azkaban/utils/CustomDateUtil.java:115-149 | gives null for a missing or blank flag, fails exactly on a non-blank unknown flag, and otherwise gives a time text |
| CustomDate.GetCustomTimeMeaning | src/java/azkaban/utils/CustomDateUtil.java:125-141 | for distinct flags, each flag selects its own text: the previous hour, yesterday's date, the submit hour or the submit date |
| CustomDate.LastHourFlagSelects | src/java/azkaban/utils/CustomDateUtil.java:125-128 | the last-hour flag gives the hour text one hour before the submit time |
| CustomDate.LastDayFlagSelects | src/java/azkaban/utils/CustomDateUtil.java:130-133 | the last-day flag gives the date text one day before the submit time |
| CustomDate.HourFlagSelects | src/java/azkaban/utils/CustomDateUtil.java:135-137 | the hour flag gives the hour text of the submit time |
| CustomDate.DayFlagSelects | src/java/azkaban/utils/CustomDateUtil.java:139-141 | the day flag gives the date text of the submit time |
| CustomDate.Props.Put | src/java/azkaban/utils/CustomDateUtil.java:31 | sets one key, replacing any earlier value |
| CustomDate.DatePropsMeaning | src/java/azkaban/utils/CustomDateUtil.java:27-39 | the day, hour and minute texts nest; the last-hour text is what the last-hour flag selects; the last-day text is the date one hour and one day back, which is the day before yesterday during the first hour of a day; other keys are kept |
| CustomDate.PutDatesLookup | src/java/azkaban/utils/CustomDateUtil.java:31-39 | each of the five keys holds its own text, and other keys are kept |
| CustomDate.CustomDate | src/java/azkaban/utils/CustomDateUtil.java:18-43 | writes nothing for a missing or zero submit time, and otherwise writes the five date keys from it |
| CustomDate.PutDateKeys | src/java/azkaban/utils/CustomDateUtil.java:98-106 | writes the five date keys from one instant, stepping the calendar back one hour and then one more day |
| CustomDate.PutCurrentKeys | src/java/azkaban/utils/CustomDateUtil.java:98-100 | writes the day, hour and minute texts of the instant |
| CustomDate.PutCustomTime | src/java/azkaban/utils/CustomDateUtil.java:74-96 | writes `custom.time` as `getCustomTime` would give it, nothing for a blank flag, and fails on an unknown flag without writing |
| CustomDate.CustomTime | src/java/azkaban/utils/CustomDateUtil.java:45-113 | fails exactly on an unknown flag, with nothing written; otherwise it writes the flag's time text (taken from the submit time, or the current time when there is none) and then the five date keys from the current time |
| CustomDate.OnlyCustomTimeFollowsSubmitTime | src/java/azkaban/utils/CustomDateUtil.java:45-106 | two runs of `customTime` that differ only in the submit time agree on every key except `custom.time` |

## Left out

- Connections, commits, `DbUtils.closeQuietly` and the wrapping of `SQLException` and
  `IOException` are left out. A failing statement is a `Failure` value instead.
- The SQL engine is represented only by the row selections the statements make. The
  query text `fetchFlowHistory` builds is modelled, but evaluating it is not.
- `synchronized` is left out. The model is sequential.
- Compression, JSON and `PropsUtils.toHierarchicalMap` are replaced by concrete
  reversible encodings.
  - Only their round trips and failure conditions matter to the loader.
  - The real byte formats are not modelled.
- `FileIOUtils.getUtf8Range` is a function parameter, and its algorithm is not
  modelled. `new String(buffer, offset, length)` keeps the bytes and does not decode
  them.
- The clock is a parameter. This covers `System.currentTimeMillis`,
  `DateTime.now()` and `Calendar.getInstance()`. The log writer takes one reading
  per stored part (`clock(k)` for the k-th part), as `uploadLogPart` calls
  `DateTime.now()` for each part.
- `CustomDate.CustomTime`: the two `Calendar.getInstance()` calls are taken to read
  the same instant `now`.
- Reading the files is a schedule of chunk sizes over their bytes, and nothing is
  read from disk.
  - The stream left open for each file but the last is not modelled.
  - Nor is an `IOException` in the middle of a file.
- `LogChunks.SortByStart`: rows with equal `start_byte` keep their table order.
  `ORDER BY start_byte` does not promise any order among such rows. The model
  fixes one order, so it does not cover the other orders a database may return.
  Within one generation of one upload the start bytes are distinct, so
  `WriteThenRead` is not affected.
- `ExecutorLoader.ReadSize`: any read size the stream may return is allowed, rather
  than how `BufferedInputStream` chooses it.
- Byte offsets, lengths and counts are unbounded integers. The 32-bit `int`
  overflow of offsets past 2 GiB is not modelled. Only the `(int)` cast of the
  inserted id wraps.
- The calendar is the proleptic Gregorian calendar in a fixed UTC+8 zone without
  daylight saving.
  - The Julian dates before 1582 are not modelled.
  - Nor are other JVM default zones.
- Years beyond four digits are not modelled: they lose the fixed 8/10/12-character
  layout of the formatted texts.
- The spellings of the `CUSTOM_*` flag constants of `ExecutableNode` are a
  `FlagNames` parameter. `ExecutableNode` is not part of this model.
- `setCustomTime` (CustomDateUtil.java:151-153) reads a field of
  `ExecutableFlowBase`, which is not part of this model.
- `getDefaultEncodingType` is a plain getter of the modelled field.
- These operations have no model: `uploadAttachmentFile`, `fetchAttachments`,
  `fetchJobInfo`, `fetchJobInfoAttempts`, `fetchJobHistory`,
  `querySubmitTimeByRerunId` and the three fixed-query `fetchFlowHistory` overloads
  (JdbcExecutorLoader.java:275-338).
  - They only run fixed selections whose handlers rebuild objects that are not part
    of this model: `ExecutableJobInfo`, attachments and the submit-time props.
- `ExecutorLoader.JobStartEndTime`: `fetchJobStartEndTime` queries by the node's
  nested id, while rows are written under its plain id. The lookup key is taken as a
  parameter, so the model does not decide whether the two agree.
- Console output (`System.out.println`, `printStackTrace`) and logging are left out.
