/** The chunked log store, as functions over the rows of `execution_logs`.

    The writer cuts the concatenation of its input files into windows of
    `ChunkSize` bytes and writes one row per window (`Split`, `ChunkRows`).
    The reader picks the highest rerun generation recorded for the key,
    selects the rows that meet the requested byte window, orders them by
    `start_byte`, cuts the overlapping part out of each and concatenates the
    parts (`FetchLogsResult`). The central fact is `WriteThenRead`: whatever the
    earlier generations hold, reading a window back from the writer's rows
    gives exactly that window of the original bytes. */
module LogChunks {
  import opened Common
  import opened Codec

  /** The writer's buffer: 50 KiB. */
  const ChunkSize: int := 50 * 1024

  /** One row of `execution_logs`. */
  datatype LogRow = LogRow(
    execId: int,
    name: string,
    attempt: int,
    encType: int,
    startByte: int,
    endByte: int,
    log: seq<byte>,
    uploadTime: int,
    rerunTime: int)

  /** What every row of one writer call shares. The upload time is not
      shared: each part reads the clock when it is stored (`Stamp`). */
  datatype LogTag = LogTag(
    execId: int,
    name: string,
    attempt: int,
    enc: EncodingType,
    rerunTime: int)

  /** One window of the uncompressed stream, starting at byte `start`. */
  datatype Chunk = Chunk(start: int, data: seq<byte>)

  // =====================================================================
  // Writer specification

  /** The concatenation of all input files, in order. */
  function Flatten(files: seq<seq<byte>>): seq<byte>
    decreases |files|
  {
    if |files| == 0 then [] else Flatten(files[..|files| - 1]) + files[|files| - 1]
  }

  /** The chunks of `data` when the stream position of `data[0]` is `start`:
      full windows, then one short window if bytes remain. */
  function Split(data: seq<byte>, start: int): seq<Chunk>
    decreases |data|
  {
    if |data| == 0 then []
    else if |data| <= ChunkSize then [Chunk(start, data)]
    else [Chunk(start, data[..ChunkSize])] + Split(data[ChunkSize..], start + ChunkSize)
  }

  function Payloads(cs: seq<Chunk>): seq<byte>
    decreases |cs|
  {
    if |cs| == 0 then [] else cs[0].data + Payloads(cs[1..])
  }

  /** The writer's first `|data| > ChunkSize` step: a full window, then the
      chunks of the remainder. */
  lemma SplitUnfold(data: seq<byte>, start: int)
    requires |data| > ChunkSize
    ensures Split(data, start) == [Chunk(start, data[..ChunkSize])] + Split(data[ChunkSize..], start + ChunkSize)
    ensures Split(data, start)[1..] == Split(data[ChunkSize..], start + ChunkSize)
  {
  }

  /** There are ceil(|data| / ChunkSize) chunks. */
  lemma {:induction false} SplitCount(data: seq<byte>, start: int)
    ensures |Split(data, start)| == (|data| + ChunkSize - 1) / ChunkSize
    decreases |data|
  {
    if |data| > ChunkSize {
      SplitUnfold(data, start);
      SplitCount(data[ChunkSize..], start + ChunkSize);
    }
  }

  /** The first chunk starts at `start` and each chunk starts where the
      previous one ends. */
  lemma {:induction false} SplitContiguous(data: seq<byte>, start: int)
    ensures var cs := Split(data, start);
      && (|cs| > 0 ==> cs[0].start == start)
      && (forall i :: 0 < i < |cs| ==> cs[i].start == cs[i - 1].start + |cs[i - 1].data|)
    decreases |data|
  {
    if |data| > ChunkSize {
      var cs := Split(data, start);
      var tail := Split(data[ChunkSize..], start + ChunkSize);
      SplitUnfold(data, start);
      SplitContiguous(data[ChunkSize..], start + ChunkSize);
      forall i | 0 < i < |cs|
        ensures cs[i].start == cs[i - 1].start + |cs[i - 1].data|
      {
        if i > 1 {
          assert cs[i] == tail[i - 1] && cs[i - 1] == tail[i - 2];
        } else {
          assert cs[1] == tail[0];
        }
      }
    }
  }

  /** Every chunk but the last holds a full window and the last holds 1 to
      `ChunkSize` bytes, so the writer never produces an empty chunk. */
  lemma {:induction false} SplitSizes(data: seq<byte>, start: int)
    ensures var cs := Split(data, start);
      && (forall i :: 0 <= i < |cs| - 1 ==> |cs[i].data| == ChunkSize)
      && (|cs| > 0 ==> 1 <= |cs[|cs| - 1].data| <= ChunkSize)
    decreases |data|
  {
    if |data| > ChunkSize {
      var cs := Split(data, start);
      var tail := Split(data[ChunkSize..], start + ChunkSize);
      SplitUnfold(data, start);
      SplitSizes(data[ChunkSize..], start + ChunkSize);
      SplitCount(data[ChunkSize..], start + ChunkSize);
      assert |tail| > 0;
      assert cs[|cs| - 1] == tail[|tail| - 1];
      forall i | 0 <= i < |cs| - 1
        ensures |cs[i].data| == ChunkSize
      {
        if i > 0 {
          assert cs[i] == tail[i - 1];
        }
      }
    }
  }

  /** The chunks' payloads concatenate back to `data`. */
  lemma {:induction false} SplitPayloads(data: seq<byte>, start: int)
    ensures Payloads(Split(data, start)) == data
    decreases |data|
  {
    if |data| > ChunkSize {
      SplitUnfold(data, start);
      SplitPayloads(data[ChunkSize..], start + ChunkSize);
      assert data[..ChunkSize] + data[ChunkSize..] == data;
    } else if |data| > 0 {
      assert Payloads(Split(data, start)) == data + [];
    }
  }

  /** Appending one window to a whole number of windows appends one chunk. */
  lemma {:induction false} SplitAppend(a: seq<byte>, b: seq<byte>, start: int)
    requires |a| % ChunkSize == 0
    requires 0 < |b| <= ChunkSize
    ensures Split(a + b, start) == Split(a, start) + [Chunk(start + |a|, b)]
    decreases |a|
  {
    if |a| == 0 {
      assert a + b == b;
    } else {
      assert |a| >= ChunkSize;
      var a' := a[ChunkSize..];
      assert (a + b)[..ChunkSize] == a[..ChunkSize];
      assert (a + b)[ChunkSize..] == a' + b;
      SplitAppend(a', b, start + ChunkSize);
      if |a| == ChunkSize {
        assert a' == [];
        assert Split(a, start) == [Chunk(start, a)];
        assert a[..ChunkSize] == a;
      }
    }
  }

  /** The row of one chunk, before the writer stamps it with the time it is
      stored (upload time 0 until then). */
  function ChunkRow(tag: LogTag, c: Chunk): LogRow {
    LogRow(tag.execId, tag.name, tag.attempt, NumVal(tag.enc), c.start,
           c.start + |c.data|, EncodeBlob(tag.enc, c.data), 0, tag.rerunTime)
  }

  function ChunkRows(tag: LogTag, cs: seq<Chunk>): (rows: seq<LogRow>)
    ensures |rows| == |cs|
    decreases |cs|
  {
    if |cs| == 0 then [] else [ChunkRow(tag, cs[0])] + ChunkRows(tag, cs[1..])
  }

  lemma {:induction false} ChunkRowsAppend(tag: LogTag, cs: seq<Chunk>, ds: seq<Chunk>)
    ensures ChunkRows(tag, cs + ds) == ChunkRows(tag, cs) + ChunkRows(tag, ds)
    decreases |cs|
  {
    if |cs| == 0 {
      assert cs + ds == ds;
    } else {
      assert (cs + ds)[1..] == cs[1..] + ds;
      ChunkRowsAppend(tag, cs[1..], ds);
    }
  }

  /** Every stored row of the writer says `end_byte == start_byte + length`
      and its payload decodes, under its own tag, to the chunk's bytes. */
  lemma ChunkRowsDecode(tag: LogTag, cs: seq<Chunk>, i: int)
    requires 0 <= i < |cs|
    ensures var r := ChunkRows(tag, cs)[i];
      && r.startByte == cs[i].start
      && r.endByte == r.startByte + |cs[i].data|
      && DecodeBlob(r.encType, r.log) == Some(cs[i].data)
  {
    ChunkRowsAt(tag, cs, i);
    BlobRoundTrip(tag.enc, cs[i].data);
  }

  lemma {:induction false} ChunkRowsAt(tag: LogTag, cs: seq<Chunk>, i: int)
    requires 0 <= i < |cs|
    ensures ChunkRows(tag, cs)[i] == ChunkRow(tag, cs[i])
    decreases i
  {
    if i > 0 {
      ChunkRowsAt(tag, cs[1..], i - 1);
    }
  }

  // =====================================================================
  // Rerun generation lookups

  predicate KeyMatches(r: LogRow, execId: int, name: string, attempt: int) {
    r.execId == execId && r.name == name && r.attempt == attempt
  }

  function MaxOpt(a: Option<int>, b: Option<int>): Option<int> {
    match a
    case None => b
    case Some(x) =>
      match b
      case None => a
      case Some(y) => Some(if x >= y then x else y)
  }

  /** `SELECT max(rerun_time) ... WHERE exec_id=? AND name=? AND attempt=?`:
      NULL (None) when no row matches, otherwise the largest generation of
      the matching rows. */
  function MaxJobRerun(rows: seq<LogRow>, execId: int, name: string, attempt: int): (m: Option<int>)
    ensures m.None? <==> forall i :: 0 <= i < |rows| ==> !KeyMatches(rows[i], execId, name, attempt)
    ensures m.Some? ==> exists i :: 0 <= i < |rows| && KeyMatches(rows[i], execId, name, attempt) && rows[i].rerunTime == m.value
    ensures m.Some? ==> forall i :: 0 <= i < |rows| && KeyMatches(rows[i], execId, name, attempt) ==> rows[i].rerunTime <= m.value
    decreases |rows|
  {
    if |rows| == 0 then None
    else
      var rest := MaxJobRerun(rows[1..], execId, name, attempt);
      var m := MaxOpt(if KeyMatches(rows[0], execId, name, attempt) then Some(rows[0].rerunTime) else None, rest);
      assert forall i :: 1 <= i < |rows| ==> rows[i] == rows[1..][i - 1];
      m
  }

  /** `SELECT max(rerun_time) FROM execution_logs WHERE exec_id=?`. */
  function MaxExecutionRerun(rows: seq<LogRow>, execId: int): (m: Option<int>)
    ensures m.None? <==> forall i :: 0 <= i < |rows| ==> rows[i].execId != execId
    ensures m.Some? ==> exists i :: 0 <= i < |rows| && rows[i].execId == execId && rows[i].rerunTime == m.value
    ensures m.Some? ==> forall i :: 0 <= i < |rows| && rows[i].execId == execId ==> rows[i].rerunTime <= m.value
    decreases |rows|
  {
    if |rows| == 0 then None
    else
      var rest := MaxExecutionRerun(rows[1..], execId);
      var m := MaxOpt(if rows[0].execId == execId then Some(rows[0].rerunTime) else None, rest);
      assert forall i :: 1 <= i < |rows| ==> rows[i] == rows[1..][i - 1];
      m
  }

  /** An aggregate without GROUP BY yields exactly one row, NULL when nothing
      matched. */
  function AggregateResult(m: Option<int>): seq<Option<int>> {
    [m]
  }

  /** `FetchJobMaxRerunTimeHandler.handle`: the first row's value (`getInt`
      reads NULL as 0), or an error when there is no row at all. */
  function JobMaxRerunHandler(rs: seq<Option<int>>): (r: Result<int>)
    ensures r.Failure? <==> |rs| == 0
    ensures |rs| > 0 ==> r.value == rs[0].GetOr(0)
  {
    if |rs| == 0 then Failure(MaxRerunMissing) else Success(rs[0].GetOr(0))
  }

  /** `FetchExecutionMaxRerunTimeHandler.handle`: the first row's value, or 0
      when there is no row. */
  function ExecutionMaxRerunHandler(rs: seq<Option<int>>): (r: int)
    ensures |rs| == 0 ==> r == 0
    ensures |rs| > 0 ==> r == rs[0].GetOr(0)
  {
    if |rs| == 0 then 0 else rs[0].GetOr(0)
  }

  /** `fetchExecutionMaxRerunTime`: the highest generation logged for the
      execution, and 0 (the first, non-rerun generation) when none is. */
  lemma ExecutionMaxRerunIsMax(rows: seq<LogRow>, execId: int)
    ensures var g := ExecutionMaxRerunHandler(AggregateResult(MaxExecutionRerun(rows, execId)));
      && ((forall i :: 0 <= i < |rows| ==> rows[i].execId != execId) ==> g == 0)
      && (forall i :: 0 <= i < |rows| && rows[i].execId == execId ==> rows[i].rerunTime <= g)
  {
  }

  /** The generation the log reader uses: it can never take the error path,
      because the aggregate always yields a row; with no row for the key it
      is 0. */
  lemma JobMaxRerunAlwaysAnswers(rows: seq<LogRow>, execId: int, name: string, attempt: int)
    ensures var r := JobMaxRerunHandler(AggregateResult(MaxJobRerun(rows, execId, name, attempt)));
      && r.Success?
      && (MaxJobRerun(rows, execId, name, attempt).None? ==> r.value == 0)
      && (MaxJobRerun(rows, execId, name, attempt).Some? ==> r.value == MaxJobRerun(rows, execId, name, attempt).value)
  {
  }

  lemma {:induction false} MaxJobRerunAppend(a: seq<LogRow>, b: seq<LogRow>, execId: int, name: string, attempt: int)
    ensures MaxJobRerun(a + b, execId, name, attempt)
         == MaxOpt(MaxJobRerun(a, execId, name, attempt), MaxJobRerun(b, execId, name, attempt))
    decreases |a|
  {
    if |a| == 0 {
      assert a + b == b;
    } else {
      var head := if KeyMatches(a[0], execId, name, attempt) then Some(a[0].rerunTime) else None;
      assert (a + b)[0] == a[0] && (a + b)[1..] == a[1..] + b;
      assert MaxJobRerun(a + b, execId, name, attempt) == MaxOpt(head, MaxJobRerun(a[1..] + b, execId, name, attempt));
      MaxJobRerunAppend(a[1..], b, execId, name, attempt);
      MaxOptAssoc(head, MaxJobRerun(a[1..], execId, name, attempt), MaxJobRerun(b, execId, name, attempt));
    }
  }

  lemma MaxOptAssoc(x: Option<int>, y: Option<int>, z: Option<int>)
    ensures MaxOpt(x, MaxOpt(y, z)) == MaxOpt(MaxOpt(x, y), z)
  {
  }

  // =====================================================================
  // Reader: selection, ordering, slicing, assembling

  /** The WHERE clause of `FETCH_LOGS`. */
  predicate Selected(r: LogRow, execId: int, name: string, attempt: int, rerun: int, reqStart: int, reqEnd: int) {
    KeyMatches(r, execId, name, attempt) && r.rerunTime == rerun
    && r.endByte > reqStart && r.startByte <= reqEnd
  }

  function SelectLogs(rows: seq<LogRow>, execId: int, name: string, attempt: int, rerun: int, reqStart: int, reqEnd: int): (s: seq<LogRow>)
    ensures |s| <= |rows|
    decreases |rows|
  {
    if |rows| == 0 then []
    else
      (if Selected(rows[0], execId, name, attempt, rerun, reqStart, reqEnd) then [rows[0]] else [])
      + SelectLogs(rows[1..], execId, name, attempt, rerun, reqStart, reqEnd)
  }

  /** The selection holds exactly the rows that satisfy the WHERE clause. */
  lemma {:induction false} SelectLogsMembers(rows: seq<LogRow>, execId: int, name: string, attempt: int, rerun: int, reqStart: int, reqEnd: int)
    ensures var s := SelectLogs(rows, execId, name, attempt, rerun, reqStart, reqEnd);
      && (forall r :: r in s ==> r in rows && Selected(r, execId, name, attempt, rerun, reqStart, reqEnd))
      && (forall r :: r in rows && Selected(r, execId, name, attempt, rerun, reqStart, reqEnd) ==> r in s)
    decreases |rows|
  {
    if |rows| > 0 {
      SelectLogsMembers(rows[1..], execId, name, attempt, rerun, reqStart, reqEnd);
      assert rows == [rows[0]] + rows[1..];
    }
  }

  lemma {:induction false} SelectLogsAppend(a: seq<LogRow>, b: seq<LogRow>, execId: int, name: string, attempt: int, rerun: int, reqStart: int, reqEnd: int)
    ensures SelectLogs(a + b, execId, name, attempt, rerun, reqStart, reqEnd)
         == SelectLogs(a, execId, name, attempt, rerun, reqStart, reqEnd) + SelectLogs(b, execId, name, attempt, rerun, reqStart, reqEnd)
    decreases |a|
  {
    if |a| == 0 {
      assert a + b == b;
    } else {
      var head := if Selected(a[0], execId, name, attempt, rerun, reqStart, reqEnd) then [a[0]] else [];
      assert (a + b)[0] == a[0];
      assert (a + b)[1..] == a[1..] + b;
      assert SelectLogs(a + b, execId, name, attempt, rerun, reqStart, reqEnd)
          == head + SelectLogs(a[1..] + b, execId, name, attempt, rerun, reqStart, reqEnd);
      assert SelectLogs(a, execId, name, attempt, rerun, reqStart, reqEnd)
          == head + SelectLogs(a[1..], execId, name, attempt, rerun, reqStart, reqEnd);
      SelectLogsAppend(a[1..], b, execId, name, attempt, rerun, reqStart, reqEnd);
    }
  }

  predicate SortedByStart(rows: seq<LogRow>) {
    forall i, j :: 0 <= i < j < |rows| ==> rows[i].startByte <= rows[j].startByte
  }

  /** Insertion keeps earlier rows with an equal `start_byte` first. */
  function InsertByStart(x: LogRow, rows: seq<LogRow>): (r: seq<LogRow>)
    requires SortedByStart(rows)
    ensures SortedByStart(r)
    ensures multiset(r) == multiset(rows) + multiset{x}
    decreases |rows|
  {
    if |rows| == 0 then [x]
    else if x.startByte <= rows[0].startByte then [x] + rows
    else
      var tail := InsertByStart(x, rows[1..]);
      assert rows == [rows[0]] + rows[1..];
      ConsSorted(rows[0], rows[1..], x, tail);
      [rows[0]] + tail
  }

  /** A row no later than every row of `rest` and than `x` can head any
      sorted arrangement of `rest` and `x`. */
  lemma ConsSorted(h: LogRow, rest: seq<LogRow>, x: LogRow, tail: seq<LogRow>)
    requires SortedByStart([h] + rest) && h.startByte < x.startByte
    requires SortedByStart(tail) && multiset(tail) == multiset(rest) + multiset{x}
    ensures SortedByStart([h] + tail)
  {
    forall r | r in rest
      ensures h.startByte <= r.startByte
    {
      var j :| 0 <= j < |rest| && rest[j] == r;
      assert ([h] + rest)[0] == h && ([h] + rest)[j + 1] == r;
    }
    forall k | 0 <= k < |tail|
      ensures h.startByte <= tail[k].startByte
    {
      assert tail[k] in multiset(tail);
    }
    forall i, j | 0 <= i < j < |[h] + tail|
      ensures ([h] + tail)[i].startByte <= ([h] + tail)[j].startByte
    {
      if i > 0 {
        assert ([h] + tail)[i] == tail[i - 1];
      }
      assert ([h] + tail)[j] == tail[j - 1];
    }
  }

  /** `ORDER BY start_byte`, with ties kept in table order. */
  function SortByStart(rows: seq<LogRow>): (r: seq<LogRow>)
    ensures SortedByStart(r)
    ensures multiset(r) == multiset(rows)
    decreases |rows|
  {
    if |rows| == 0 then []
    else
      assert rows == [rows[0]] + rows[1..];
      InsertByStart(rows[0], SortByStart(rows[1..]))
  }

  lemma {:induction false} SortSortedIsIdentity(rows: seq<LogRow>)
    requires SortedByStart(rows)
    ensures SortByStart(rows) == rows
    decreases |rows|
  {
    if |rows| > 0 {
      SortSortedIsIdentity(rows[1..]);
      assert rows == [rows[0]] + rows[1..];
    }
  }

  lemma {:induction false} SelectKeepsSorted(rows: seq<LogRow>, execId: int, name: string, attempt: int, rerun: int, reqStart: int, reqEnd: int)
    requires SortedByStart(rows)
    ensures SortedByStart(SelectLogs(rows, execId, name, attempt, rerun, reqStart, reqEnd))
    decreases |rows|
  {
    if |rows| > 0 {
      var tail := SelectLogs(rows[1..], execId, name, attempt, rerun, reqStart, reqEnd);
      SelectKeepsSorted(rows[1..], execId, name, attempt, rerun, reqStart, reqEnd);
      SelectLogsMembers(rows[1..], execId, name, attempt, rerun, reqStart, reqEnd);
      forall k | 0 <= k < |tail|
        ensures rows[0].startByte <= tail[k].startByte
      {
        assert tail[k] in tail;
        var j :| 0 <= j < |rows[1..]| && rows[1..][j] == tail[k];
        assert rows[j + 1] == tail[k];
      }
    }
  }

  /** The offset into a chunk (FetchLogsHandler, lines 1074-1076). */
  function SliceOffset(reqStart: int, start: int): int {
    if reqStart > start then reqStart - start else 0
  }

  /** The length taken from a chunk (lines 1077-1079). */
  function SliceLength(reqEnd: int, start: int, end: int, offset: int): int {
    if reqEnd < end then reqEnd - start - offset else end - start - offset
  }

  /** For a selected well-formed chunk and a window with `reqStart <= reqEnd`,
      the offset and the length both lie within the chunk, the slice is the
      intersection of the window with the chunk, and a chunk that starts
      exactly at the window's end contributes nothing. */
  lemma SliceArithmetic(reqStart: int, reqEnd: int, start: int, end: int)
    requires reqStart <= reqEnd && start <= end
    requires end > reqStart && start <= reqEnd
    ensures var off := SliceOffset(reqStart, start);
      var len := SliceLength(reqEnd, start, end, off);
      && 0 <= off <= end - start
      && 0 <= len <= end - start
      && off + len <= end - start
      && start + off == (if reqStart > start then reqStart else start)
      && start + off + len == (if reqEnd < end then reqEnd else end)
      && (start == reqEnd ==> len == 0)
  {
  }

  /** One chunk's contribution: inflate when its tag says GZIP (an error if
      that fails), then the bytes `[offset, offset+length)` of it (an error,
      as `ByteArrayOutputStream.write` raises, if that range is not inside
      the inflated buffer). */
  function SliceOf(r: LogRow, reqStart: int, reqEnd: int): (res: Result<seq<byte>>)
    ensures res.Success? ==> exists buf :: DecodeBlob(r.encType, r.log) == Some(buf)
  {
    var off := SliceOffset(reqStart, r.startByte);
    var len := SliceLength(reqEnd, r.startByte, r.endByte, off);
    match DecodeBlob(r.encType, r.log)
    case None => Failure(DecodeError)
    case Some(buf) =>
      if off < 0 || len < 0 || off + len > |buf| then Failure(IndexOutOfBounds)
      else Success(buf[off..off + len])
  }

  /** The bytes the handler accumulates over the rows, in order; the first
      failing row decides the error. */
  function Assemble(rows: seq<LogRow>, reqStart: int, reqEnd: int): Result<seq<byte>>
    decreases |rows|
  {
    if |rows| == 0 then Success([])
    else
      match Assemble(rows[..|rows| - 1], reqStart, reqEnd)
      case Failure(e) => Failure(e)
      case Success(acc) =>
        match SliceOf(rows[|rows| - 1], reqStart, reqEnd)
        case Failure(e) => Failure(e)
        case Success(part) => Success(acc + part)
  }

  /** One more row either extends the assembled bytes by its slice or
      fails as its slice does. */
  lemma AssembleSnoc(rows: seq<LogRow>, i: int, acc: seq<byte>, reqStart: int, reqEnd: int)
    requires 0 <= i < |rows|
    requires Assemble(rows[..i], reqStart, reqEnd) == Success(acc)
    ensures Assemble(rows[..i + 1], reqStart, reqEnd) == Combine(Success(acc), SliceOf(rows[i], reqStart, reqEnd))
  {
    assert rows[..i + 1][..i] == rows[..i] && rows[..i + 1][i] == rows[i];
  }

  function Combine(a: Result<seq<byte>>, b: Result<seq<byte>>): Result<seq<byte>> {
    match a
    case Failure(e) => Failure(e)
    case Success(x) =>
      match b
      case Failure(e) => Failure(e)
      case Success(y) => Success(x + y)
  }

  lemma {:induction false} AssembleAppend(a: seq<LogRow>, b: seq<LogRow>, reqStart: int, reqEnd: int)
    ensures Assemble(a + b, reqStart, reqEnd) == Combine(Assemble(a, reqStart, reqEnd), Assemble(b, reqStart, reqEnd))
    decreases |b|
  {
    if |b| == 0 {
      assert a + b == a;
      match Assemble(a, reqStart, reqEnd)
      case Failure(e) =>
      case Success(x) => assert x + [] == x;
    } else {
      var ab := a + b;
      assert ab[..|ab| - 1] == a + b[..|b| - 1];
      assert ab[|ab| - 1] == b[|b| - 1];
      AssembleAppend(a, b[..|b| - 1], reqStart, reqEnd);
      match Assemble(a, reqStart, reqEnd)
      case Failure(e) =>
      case Success(x) =>
        match Assemble(b[..|b| - 1], reqStart, reqEnd)
        case Failure(e) =>
        case Success(y) =>
          match SliceOf(b[|b| - 1], reqStart, reqEnd)
          case Failure(e) =>
          case Success(z) => assert x + y + z == x + (y + z);
    }
  }

  lemma AssembleOne(r: LogRow, reqStart: int, reqEnd: int)
    ensures Assemble([r], reqStart, reqEnd) == SliceOf(r, reqStart, reqEnd)
  {
    assert [r][..0] == [];
    match SliceOf(r, reqStart, reqEnd)
    case Failure(e) =>
    case Success(z) => assert [] + z == z;
  }

  /** A failure among the first rows decides the result of all rows. */
  lemma {:induction false} AssemblePrefixFailure(rows: seq<LogRow>, i: int, reqStart: int, reqEnd: int)
    requires 0 <= i <= |rows|
    requires Assemble(rows[..i], reqStart, reqEnd).Failure?
    ensures Assemble(rows, reqStart, reqEnd) == Assemble(rows[..i], reqStart, reqEnd)
    decreases |rows| - i
  {
    if i < |rows| {
      assert rows[..i + 1][..i] == rows[..i];
      AssemblePrefixFailure(rows, i + 1, reqStart, reqEnd);
    } else {
      assert rows[..i] == rows;
    }
  }

  datatype LogData = LogData(offset: int, length: int, data: seq<byte>)

  /** The decoded text of the returned range: `new String(buffer, first, len)`,
      which raises when the range is not inside the buffer. */
  function TrimmedLog(buf: seq<byte>, reqStart: int, range: (int, int)): (r: Result<LogData>)
    ensures r.Success? <==> 0 <= range.0 && 0 <= range.1 && range.0 + range.1 <= |buf|
    ensures r.Success? ==> (r.value.offset == reqStart + range.0 && r.value.length == range.1
                            && r.value.data == buf[range.0..range.0 + range.1])
  {
    if 0 <= range.0 && 0 <= range.1 && range.0 + range.1 <= |buf| then
      Success(LogData(reqStart + range.0, range.1, buf[range.0..range.0 + range.1]))
    else Failure(IndexOutOfBounds)
  }

  /** `FetchLogsHandler.handle`: no data for an empty result set; otherwise
      the assembled bytes, trimmed to the range `utf8Range` reports. The
      reported offset is the requested start (the handler's field) plus the
      trim offset. */
  function HandleLogsResult(rows: seq<LogRow>, reqStart: int, reqEnd: int, utf8Range: seq<byte> -> (int, int)): Result<Option<LogData>> {
    if |rows| == 0 then Success(None)
    else
      match Assemble(rows, reqStart, reqEnd)
      case Failure(e) => Failure(e)
      case Success(buf) =>
        match TrimmedLog(buf, reqStart, utf8Range(buf))
        case Failure(e) => Failure(e)
        case Success(d) => Success(Some(d))
  }

  /** The rows `FETCH_LOGS` returns for the request, in order. */
  function FetchLogsRows(rows: seq<LogRow>, execId: int, name: string, attempt: int, rerun: int, startByte: int, length: int): seq<LogRow> {
    SortByStart(SelectLogs(rows, execId, name, attempt, rerun, startByte, startByte + length))
  }

  /** `fetchLogs`: the maximum generation for the key, then the handler over
      the rows of that generation that meet the window. */
  function FetchLogsResult(rows: seq<LogRow>, execId: int, name: string, attempt: int, startByte: int, length: int,
                           utf8Range: seq<byte> -> (int, int)): Result<Option<LogData>>
  {
    match JobMaxRerunHandler(AggregateResult(MaxJobRerun(rows, execId, name, attempt)))
    case Failure(e) => Failure(e)
    case Success(rerun) =>
      HandleLogsResult(FetchLogsRows(rows, execId, name, attempt, rerun, startByte, length),
                       startByte, startByte + length, utf8Range)
  }

  lemma {:induction false} SelectNoneEmpty(rows: seq<LogRow>, execId: int, name: string, attempt: int, rerun: int, reqStart: int, reqEnd: int)
    requires forall i :: 0 <= i < |rows| ==> !Selected(rows[i], execId, name, attempt, rerun, reqStart, reqEnd)
    ensures SelectLogs(rows, execId, name, attempt, rerun, reqStart, reqEnd) == []
    decreases |rows|
  {
    if |rows| > 0 {
      assert !Selected(rows[0], execId, name, attempt, rerun, reqStart, reqEnd);
      SelectNoneEmpty(rows[1..], execId, name, attempt, rerun, reqStart, reqEnd);
    }
  }

  /** If no row matches the key, the reader answers "no data". */
  lemma NoRowsNoData(rows: seq<LogRow>, execId: int, name: string, attempt: int, startByte: int, length: int,
                     utf8Range: seq<byte> -> (int, int))
    requires forall i :: 0 <= i < |rows| ==> !KeyMatches(rows[i], execId, name, attempt)
    ensures FetchLogsResult(rows, execId, name, attempt, startByte, length, utf8Range) == Success(None)
  {
    SelectNoneEmpty(rows, execId, name, attempt, 0, startByte, startByte + length);
  }

  // =====================================================================
  // Reading back what the writer wrote

  function Clamp(x: int, n: nat): (r: nat)
    ensures r <= n
  {
    if x < 0 then 0 else if x > n then n else x
  }

  lemma {:induction false} ChunkRowsStartFrom(tag: LogTag, data: seq<byte>, start: int)
    ensures forall r :: r in ChunkRows(tag, Split(data, start)) ==> r.startByte >= start
    ensures SortedByStart(ChunkRows(tag, Split(data, start)))
    decreases |data|
  {
    if |data| > ChunkSize {
      var rest := data[ChunkSize..];
      ChunkRowsStartFrom(tag, rest, start + ChunkSize);
      var tail := ChunkRows(tag, Split(rest, start + ChunkSize));
      var rows := ChunkRows(tag, Split(data, start));
      assert rows == [ChunkRow(tag, Chunk(start, data[..ChunkSize]))] + tail;
      forall i, j | 0 <= i < j < |rows|
        ensures rows[i].startByte <= rows[j].startByte
      {
        assert rows[j] == tail[j - 1];
        assert tail[j - 1] in tail;
        if i > 0 {
          assert rows[i] == tail[i - 1];
        }
      }
    }
  }

  /** The size of the writer's first chunk of `data`. */
  function FirstLen(data: seq<byte>): (n: nat)
    ensures |data| > 0 ==> 0 < n <= |data|
  {
    if |data| <= ChunkSize then |data| else ChunkSize
  }

  lemma SplitHead(data: seq<byte>, start: int)
    requires |data| > 0
    ensures Split(data, start)
         == [Chunk(start, data[..FirstLen(data)])] + Split(data[FirstLen(data)..], start + FirstLen(data))
  {
    if |data| <= ChunkSize {
      assert data[..FirstLen(data)] == data;
      assert data[FirstLen(data)..] == [];
    }
  }

  lemma ChunkRowsCons(tag: LogTag, c: Chunk, cs: seq<Chunk>)
    ensures ChunkRows(tag, [c] + cs) == [ChunkRow(tag, c)] + ChunkRows(tag, cs)
  {
    assert ([c] + cs)[1..] == cs;
  }

  lemma SelectLogsCons(r: LogRow, rows: seq<LogRow>, execId: int, name: string, attempt: int, rerun: int, reqStart: int, reqEnd: int)
    ensures SelectLogs([r] + rows, execId, name, attempt, rerun, reqStart, reqEnd)
         == (if Selected(r, execId, name, attempt, rerun, reqStart, reqEnd) then [r] else [])
            + SelectLogs(rows, execId, name, attempt, rerun, reqStart, reqEnd)
  {
    assert ([r] + rows)[1..] == rows;
  }

  /** A selected row of the writer contributes the overlap of its chunk with
      the window. */
  lemma ChunkRowSlice(tag: LogTag, c: Chunk, reqStart: int, reqEnd: int)
    requires reqStart <= reqEnd
    requires c.start + |c.data| > reqStart && c.start <= reqEnd
    ensures var off := SliceOffset(reqStart, c.start);
      var len := SliceLength(reqEnd, c.start, c.start + |c.data|, off);
      SliceOf(ChunkRow(tag, c), reqStart, reqEnd) == Success(c.data[off..off + len])
  {
    BlobRoundTrip(tag.enc, c.data);
    SliceArithmetic(reqStart, reqEnd, c.start, c.start + |c.data|);
  }

  /** The window of `data` is the window of its first `n0` bytes followed by
      the window of the rest. */
  lemma WindowCons(data: seq<byte>, n0: nat, start: int, reqStart: int, reqEnd: int)
    requires 0 < n0 <= |data| && reqStart <= reqEnd
    ensures HeadWindow(data, n0, start, reqStart, reqEnd) + DataWindow(data[n0..], start + n0, reqStart, reqEnd)
         == DataWindow(data, start, reqStart, reqEnd)
  {
    var A, B := reqStart, reqEnd;
    var rest := data[n0..];
    var lo, hi := Clamp(A - start, |data|), Clamp(B - start, |data|);
    var lo', hi' := Clamp(A - (start + n0), |rest|), Clamp(B - (start + n0), |rest|);
    if start + n0 > A && start <= B {
      SliceArithmetic(A, B, start, start + n0);
      var off := SliceOffset(A, start);
      var len := SliceLength(B, start, start + n0, off);
      assert data[..n0][off..off + len] == data[off..off + len];
      assert off == lo;
      if B < start + n0 {
        assert lo' == 0 && hi' == 0;
        assert off + len == hi;
      } else {
        assert lo' == 0 && off + len == n0 && n0 + hi' == hi;
        assert rest[lo'..hi'] == data[n0..hi];
        assert data[off..n0] + data[n0..hi] == data[off..hi];
      }
    } else if start + n0 <= A {
      assert lo == n0 + lo' && hi == n0 + hi';
      assert rest[lo'..hi'] == data[lo..hi];
    } else {
      assert lo == 0 && hi == 0 && lo' == 0 && hi' == 0;
    }
  }

  /** The writer's row for the first chunk of `data`, if it meets the window. */
  function HeadSelection(tag: LogTag, data: seq<byte>, start: int, reqStart: int, reqEnd: int): seq<LogRow> {
    var row0 := ChunkRow(tag, Chunk(start, data[..FirstLen(data)]));
    if Selected(row0, tag.execId, tag.name, tag.attempt, tag.rerunTime, reqStart, reqEnd) then [row0] else []
  }

  lemma SelectHead(tag: LogTag, data: seq<byte>, start: int, reqStart: int, reqEnd: int)
    requires |data| > 0
    ensures SelectLogs(ChunkRows(tag, Split(data, start)), tag.execId, tag.name, tag.attempt, tag.rerunTime, reqStart, reqEnd)
         == HeadSelection(tag, data, start, reqStart, reqEnd)
            + SelectLogs(ChunkRows(tag, Split(data[FirstLen(data)..], start + FirstLen(data))), tag.execId, tag.name, tag.attempt, tag.rerunTime, reqStart, reqEnd)
  {
    var n0 := FirstLen(data);
    var c0 := Chunk(start, data[..n0]);
    var restRows := ChunkRows(tag, Split(data[n0..], start + n0));
    SplitHead(data, start);
    ChunkRowsCons(tag, c0, Split(data[n0..], start + n0));
    SelectLogsCons(ChunkRow(tag, c0), restRows, tag.execId, tag.name, tag.attempt, tag.rerunTime, reqStart, reqEnd);
  }

  /** The part of the window inside the first `n0` bytes of `data`. */
  function HeadWindow(data: seq<byte>, n0: nat, start: int, reqStart: int, reqEnd: int): seq<byte>
    requires n0 <= |data| && reqStart <= reqEnd
  {
    var off := SliceOffset(reqStart, start);
    var len := SliceLength(reqEnd, start, start + n0, off);
    if start + n0 > reqStart && start <= reqEnd then
      SliceArithmetic(reqStart, reqEnd, start, start + n0);
      data[..n0][off..off + len]
    else []
  }

  lemma HeadSelectionReads(tag: LogTag, data: seq<byte>, start: int, reqStart: int, reqEnd: int)
    requires |data| > 0 && reqStart <= reqEnd
    ensures Assemble(HeadSelection(tag, data, start, reqStart, reqEnd), reqStart, reqEnd)
         == Success(HeadWindow(data, FirstLen(data), start, reqStart, reqEnd))
  {
    var c0 := Chunk(start, data[..FirstLen(data)]);
    if HeadSelection(tag, data, start, reqStart, reqEnd) != [] {
      AssembleOne(ChunkRow(tag, c0), reqStart, reqEnd);
      ChunkRowSlice(tag, c0, reqStart, reqEnd);
    }
  }

  /** Reading the window `[reqStart, reqEnd]` over the writer's rows of
      `Split(data, start)`. */
  function WriterRead(tag: LogTag, data: seq<byte>, start: int, reqStart: int, reqEnd: int): Result<seq<byte>> {
    Assemble(SelectLogs(ChunkRows(tag, Split(data, start)), tag.execId, tag.name, tag.attempt, tag.rerunTime, reqStart, reqEnd), reqStart, reqEnd)
  }

  /** The bytes of `data`, laid out from offset `start`, that lie inside the
      window `[reqStart, reqEnd]`. */
  function DataWindow(data: seq<byte>, start: int, reqStart: int, reqEnd: int): seq<byte>
    requires reqStart <= reqEnd
  {
    data[Clamp(reqStart - start, |data|)..Clamp(reqEnd - start, |data|)]
  }

  /** Reading the window over the rows of `Split(data, start)` assembles
      exactly the bytes of `data` that lie inside it. */
  predicate ReadsBack(tag: LogTag, data: seq<byte>, start: int, reqStart: int, reqEnd: int)
    requires reqStart <= reqEnd
  {
    WriterRead(tag, data, start, reqStart, reqEnd) == Success(DataWindow(data, start, reqStart, reqEnd))
  }

  /** Reading the window over the writer's rows of `data`, knowing what it
      gives over the rows of all but the first chunk. */
  lemma ReadBackStep(tag: LogTag, data: seq<byte>, start: int, reqStart: int, reqEnd: int)
    requires reqStart <= reqEnd && |data| > 0
    requires ReadsBack(tag, data[FirstLen(data)..], start + FirstLen(data), reqStart, reqEnd)
    ensures ReadsBack(tag, data, start, reqStart, reqEnd)
  {
    ReadBackSplit(tag, data, start, reqStart, reqEnd);
    WindowCons(data, FirstLen(data), start, reqStart, reqEnd);
  }

  /** The rows of the first chunk read its part of the window, followed by
      whatever the rows of the other chunks read. */
  lemma ReadBackSplit(tag: LogTag, data: seq<byte>, start: int, reqStart: int, reqEnd: int)
    requires reqStart <= reqEnd && |data| > 0
    ensures WriterRead(tag, data, start, reqStart, reqEnd)
         == Combine(Success(HeadWindow(data, FirstLen(data), start, reqStart, reqEnd)),
                    WriterRead(tag, data[FirstLen(data)..], start + FirstLen(data), reqStart, reqEnd))
  {
    var n0 := FirstLen(data);
    var restSel := SelectLogs(ChunkRows(tag, Split(data[n0..], start + n0)), tag.execId, tag.name, tag.attempt, tag.rerunTime, reqStart, reqEnd);
    var h := HeadSelection(tag, data, start, reqStart, reqEnd);
    SelectHead(tag, data, start, reqStart, reqEnd);
    HeadSelectionReads(tag, data, start, reqStart, reqEnd);
    AssembleAppend(h, restSel, reqStart, reqEnd);
  }

  /** Reading the window `[reqStart, reqEnd]` over the rows of `Split(data,
      start)` assembles exactly the bytes of `data` that lie inside the window. */
  lemma {:induction false} ReadBackChunks(tag: LogTag, data: seq<byte>, start: int, reqStart: int, reqEnd: int)
    requires reqStart <= reqEnd
    ensures ReadsBack(tag, data, start, reqStart, reqEnd)
    decreases |data|
  {
    if |data| > 0 {
      ReadBackChunks(tag, data[FirstLen(data)..], start + FirstLen(data), reqStart, reqEnd);
      ReadBackStep(tag, data, start, reqStart, reqEnd);
    } else {
      assert Split(data, start) == [];
    }
  }

  /** Some row of `Split(data, start)` meets the window exactly when the
      window starts before the data ends and ends at or after its start. */
  lemma {:induction false} SelectChunksNonEmpty(tag: LogTag, data: seq<byte>, start: int, reqStart: int, reqEnd: int)
    requires reqStart <= reqEnd
    ensures |SelectLogs(ChunkRows(tag, Split(data, start)), tag.execId, tag.name, tag.attempt, tag.rerunTime, reqStart, reqEnd)| > 0
        <==> |data| > 0 && reqStart < start + |data| && start <= reqEnd
    decreases |data|
  {
    var rows := ChunkRows(tag, Split(data, start));
    if |data| > 0 {
      var n0 := if |data| <= ChunkSize then |data| else ChunkSize;
      var rest := data[n0..];
      var restRows := ChunkRows(tag, Split(rest, start + n0));
      if |data| <= ChunkSize {
        assert data[..n0] == data;
        assert rest == [];
      }
      assert rows == [ChunkRow(tag, Chunk(start, data[..n0]))] + restRows;
      assert rows[1..] == restRows;
      SelectChunksNonEmpty(tag, rest, start + n0, reqStart, reqEnd);
    } else {
      assert rows == [];
    }
  }

  /** The tag-key rows of earlier generations are invisible once this
      generation has rows. */
  lemma OlderGenerationsIgnored(before: seq<LogRow>, tag: LogTag, reqStart: int, reqEnd: int)
    requires forall r :: r in before && KeyMatches(r, tag.execId, tag.name, tag.attempt) ==> r.rerunTime < tag.rerunTime
    ensures SelectLogs(before, tag.execId, tag.name, tag.attempt, tag.rerunTime, reqStart, reqEnd) == []
  {
    forall i | 0 <= i < |before|
      ensures !Selected(before[i], tag.execId, tag.name, tag.attempt, tag.rerunTime, reqStart, reqEnd)
    {
      assert before[i] in before;
    }
    SelectNoneEmpty(before, tag.execId, tag.name, tag.attempt, tag.rerunTime, reqStart, reqEnd);
  }

  /** After the write, the reader settles on the generation just written. */
  lemma MaxRerunAfterWrite(before: seq<LogRow>, tag: LogTag, data: seq<byte>)
    requires |data| > 0
    requires forall r :: r in before && KeyMatches(r, tag.execId, tag.name, tag.attempt) ==> r.rerunTime < tag.rerunTime
    ensures MaxJobRerun(before + ChunkRows(tag, Split(data, 0)), tag.execId, tag.name, tag.attempt) == Some(tag.rerunTime)
    ensures JobMaxRerunHandler(AggregateResult(MaxJobRerun(before + ChunkRows(tag, Split(data, 0)), tag.execId, tag.name, tag.attempt)))
         == Success(tag.rerunTime)
  {
    var rows := ChunkRows(tag, Split(data, 0));
    MaxJobRerunAppend(before, rows, tag.execId, tag.name, tag.attempt);
    SplitCount(data, 0);
    assert |rows| > 0;
    var m := MaxJobRerun(rows, tag.execId, tag.name, tag.attempt);
    ChunkRowsAt(tag, Split(data, 0), 0);
    assert KeyMatches(rows[0], tag.execId, tag.name, tag.attempt);
    forall i | 0 <= i < |rows|
      ensures KeyMatches(rows[i], tag.execId, tag.name, tag.attempt) && rows[i].rerunTime == tag.rerunTime
    {
      ChunkRowsAt(tag, Split(data, 0), i);
    }
    var mb := MaxJobRerun(before, tag.execId, tag.name, tag.attempt);
    if mb.Some? {
      var i :| 0 <= i < |before| && KeyMatches(before[i], tag.execId, tag.name, tag.attempt) && before[i].rerunTime == mb.value;
      assert before[i] in before;
    }
  }

  /** After the write, the reader's rows are exactly the writer's rows that meet the window, in written order. */
  lemma ReaderSeesLatestWrite(before: seq<LogRow>, tag: LogTag, data: seq<byte>, startByte: int, reqEnd: int)
    requires forall r :: r in before && KeyMatches(r, tag.execId, tag.name, tag.attempt) ==> r.rerunTime < tag.rerunTime
    ensures FetchLogsRows(before + ChunkRows(tag, Split(data, 0)), tag.execId, tag.name, tag.attempt, tag.rerunTime, startByte, reqEnd - startByte)
         == SelectLogs(ChunkRows(tag, Split(data, 0)), tag.execId, tag.name, tag.attempt, tag.rerunTime, startByte, reqEnd)
  {
    LatestSelection(before, tag, data, startByte, reqEnd);
  }

  lemma LatestSelection(before: seq<LogRow>, tag: LogTag, data: seq<byte>, reqStart: int, reqEnd: int)
    requires forall r :: r in before && KeyMatches(r, tag.execId, tag.name, tag.attempt) ==> r.rerunTime < tag.rerunTime
    ensures SortByStart(SelectLogs(before + ChunkRows(tag, Split(data, 0)), tag.execId, tag.name, tag.attempt, tag.rerunTime, reqStart, reqEnd))
         == SelectLogs(ChunkRows(tag, Split(data, 0)), tag.execId, tag.name, tag.attempt, tag.rerunTime, reqStart, reqEnd)
  {
    var rows := ChunkRows(tag, Split(data, 0));
    var sel := SelectLogs(rows, tag.execId, tag.name, tag.attempt, tag.rerunTime, reqStart, reqEnd);
    SelectLogsAppend(before, rows, tag.execId, tag.name, tag.attempt, tag.rerunTime, reqStart, reqEnd);
    OlderGenerationsIgnored(before, tag, reqStart, reqEnd);
    assert [] + sel == sel;
    WrittenSelectionSorted(tag, data, reqStart, reqEnd);
  }

  lemma WrittenSelectionSorted(tag: LogTag, data: seq<byte>, reqStart: int, reqEnd: int)
    ensures var sel := SelectLogs(ChunkRows(tag, Split(data, 0)), tag.execId, tag.name, tag.attempt, tag.rerunTime, reqStart, reqEnd);
      SortByStart(sel) == sel
  {
    var rows := ChunkRows(tag, Split(data, 0));
    ChunkRowsStartFrom(tag, data, 0);
    SelectKeepsSorted(rows, tag.execId, tag.name, tag.attempt, tag.rerunTime, reqStart, reqEnd);
    SortSortedIsIdentity(SelectLogs(rows, tag.execId, tag.name, tag.attempt, tag.rerunTime, reqStart, reqEnd));
  }

  /** `fetchLogs` is the handler run over the rows of the generation it found. */
  lemma FetchLogsThroughRows(rows: seq<LogRow>, execId: int, name: string, attempt: int, startByte: int, length: int,
                             utf8Range: seq<byte> -> (int, int), rerun: int, sel: seq<LogRow>)
    requires JobMaxRerunHandler(AggregateResult(MaxJobRerun(rows, execId, name, attempt))) == Success(rerun)
    requires FetchLogsRows(rows, execId, name, attempt, rerun, startByte, length) == sel
    ensures FetchLogsResult(rows, execId, name, attempt, startByte, length, utf8Range)
         == HandleLogsResult(sel, startByte, startByte + length, utf8Range)
  {
  }

  /** The window starting inside the data reads back the data's bytes from
      the window's start up to its end or the data's end. */
  lemma ReadWindowOfWrite(tag: LogTag, data: seq<byte>, startByte: int, reqEnd: int)
    requires 0 <= startByte < |data| && startByte <= reqEnd
    ensures var hi := if reqEnd < |data| then reqEnd else |data|;
      Assemble(SelectLogs(ChunkRows(tag, Split(data, 0)), tag.execId, tag.name, tag.attempt, tag.rerunTime, startByte, reqEnd),
               startByte, reqEnd)
      == Success(data[startByte..hi])
  {
    ReadBackChunks(tag, data, 0, startByte, reqEnd);
    assert Clamp(startByte - 0, |data|) == startByte;
  }

  /** What reading back a written stream must give: "no data" for a window
      starting at or past its end, and otherwise the stream's bytes from the
      window's start up to the window's or the stream's end, trimmed by
      `utf8Range`. */
  function ExpectedRead(data: seq<byte>, startByte: int, length: int, utf8Range: seq<byte> -> (int, int)): Result<Option<LogData>>
    requires 0 <= startByte && 0 <= length
  {
    if startByte >= |data| then Success(None)
    else
      var window := data[startByte..if startByte + length < |data| then startByte + length else |data|];
      match TrimmedLog(window, startByte, utf8Range(window))
      case Failure(e) => Failure(e)
      case Success(d) => Success(Some(d))
  }

  lemma HandleAfterWrite(tag: LogTag, data: seq<byte>, startByte: int, reqEnd: int, utf8Range: seq<byte> -> (int, int))
    requires |data| > 0 && 0 <= startByte <= reqEnd
    ensures HandleLogsResult(SelectLogs(ChunkRows(tag, Split(data, 0)), tag.execId, tag.name, tag.attempt, tag.rerunTime, startByte, reqEnd),
                             startByte, reqEnd, utf8Range)
         == ExpectedRead(data, startByte, reqEnd - startByte, utf8Range)
  {
    var sel := SelectLogs(ChunkRows(tag, Split(data, 0)), tag.execId, tag.name, tag.attempt, tag.rerunTime, startByte, reqEnd);
    if startByte < |data| {
      var window := data[startByte..if reqEnd < |data| then reqEnd else |data|];
      ReadWindowOfWrite(tag, data, startByte, reqEnd);
      assert |sel| > 0 by {
        SelectChunksNonEmpty(tag, data, 0, startByte, reqEnd);
      }
      HandleNonEmpty(sel, startByte, reqEnd, utf8Range, window);
    } else {
      assert sel == [] by {
        SelectChunksNonEmpty(tag, data, 0, startByte, reqEnd);
      }
    }
  }

  lemma FetchAfterWrite(before: seq<LogRow>, tag: LogTag, data: seq<byte>, startByte: int, reqEnd: int,
                        utf8Range: seq<byte> -> (int, int))
    requires |data| > 0
    requires forall r :: r in before && KeyMatches(r, tag.execId, tag.name, tag.attempt) ==> r.rerunTime < tag.rerunTime
    ensures FetchLogsResult(before + ChunkRows(tag, Split(data, 0)), tag.execId, tag.name, tag.attempt, startByte, reqEnd - startByte, utf8Range)
         == HandleLogsResult(SelectLogs(ChunkRows(tag, Split(data, 0)), tag.execId, tag.name, tag.attempt, tag.rerunTime, startByte, reqEnd),
                             startByte, reqEnd, utf8Range)
  {
    MaxRerunAfterWrite(before, tag, data);
    ReaderSeesLatestWrite(before, tag, data, startByte, reqEnd);
    FetchLogsThroughRows(before + ChunkRows(tag, Split(data, 0)), tag.execId, tag.name, tag.attempt, startByte, reqEnd - startByte,
                         utf8Range, tag.rerunTime,
                         SelectLogs(ChunkRows(tag, Split(data, 0)), tag.execId, tag.name, tag.attempt, tag.rerunTime, startByte, reqEnd));
  }

  /** The round trip over the chunk rows before the writer stamps them. */
  lemma ChunksThenRead(before: seq<LogRow>, tag: LogTag, data: seq<byte>, startByte: int, length: int,
                      utf8Range: seq<byte> -> (int, int))
    requires |data| > 0
    requires forall r :: r in before && KeyMatches(r, tag.execId, tag.name, tag.attempt) ==> r.rerunTime < tag.rerunTime
    requires 0 <= startByte && 0 <= length
    ensures FetchLogsResult(before + ChunkRows(tag, Split(data, 0)), tag.execId, tag.name, tag.attempt, startByte, length, utf8Range)
         == ExpectedRead(data, startByte, length, utf8Range)
  {
    var reqEnd := startByte + length;
    FetchAfterWrite(before, tag, data, startByte, reqEnd, utf8Range);
    HandleAfterWrite(tag, data, startByte, reqEnd, utf8Range);
    assert reqEnd - startByte == length;
  }

  /** The handler over a non-empty result set whose bytes assemble to `buf`. */
  lemma HandleNonEmpty(sel: seq<LogRow>, reqStart: int, reqEnd: int, utf8Range: seq<byte> -> (int, int), buf: seq<byte>)
    requires |sel| > 0
    requires Assemble(sel, reqStart, reqEnd) == Success(buf)
    ensures HandleLogsResult(sel, reqStart, reqEnd, utf8Range)
         == match TrimmedLog(buf, reqStart, utf8Range(buf))
            case Failure(e) => Failure(e)
            case Success(d) => Success(Some(d))
  {
  }

  // =====================================================================
  // Upload times

  /** The rows of one upload as stored: `uploadLogPart` reads the clock for
      every part it inserts, so the k-th row carries the k-th reading,
      `times(k)`. */
  function Stamp(rows: seq<LogRow>, times: nat -> int): (stamped: seq<LogRow>)
    ensures |stamped| == |rows|
  {
    seq(|rows|, k requires 0 <= k < |rows| => rows[k].(uploadTime := times(k)))
  }

  lemma StampSnoc(rows: seq<LogRow>, r: LogRow, times: nat -> int)
    ensures Stamp(rows + [r], times) == Stamp(rows, times) + [r.(uploadTime := times(|rows|))]
  {
  }

  /** A row with its upload time cleared: every column the reader looks at. */
  function Unstamped(r: LogRow): LogRow {
    r.(uploadTime := 0)
  }

  /** Two runs of rows that differ at most in their upload times. */
  predicate SameButTimes(a: seq<LogRow>, b: seq<LogRow>) {
    |a| == |b| && forall i :: 0 <= i < |a| ==> Unstamped(a[i]) == Unstamped(b[i])
  }

  lemma UnstampedColumns(x: LogRow, y: LogRow)
    requires Unstamped(x) == Unstamped(y)
    ensures x.execId == y.execId && x.name == y.name && x.attempt == y.attempt
    ensures x.encType == y.encType && x.startByte == y.startByte && x.endByte == y.endByte
    ensures x.log == y.log && x.rerunTime == y.rerunTime
  {
    assert Unstamped(x).execId == x.execId && Unstamped(y).execId == y.execId;
    assert Unstamped(x).name == x.name && Unstamped(y).name == y.name;
    assert Unstamped(x).attempt == x.attempt && Unstamped(y).attempt == y.attempt;
    assert Unstamped(x).encType == x.encType && Unstamped(y).encType == y.encType;
    assert Unstamped(x).startByte == x.startByte && Unstamped(y).startByte == y.startByte;
    assert Unstamped(x).endByte == x.endByte && Unstamped(y).endByte == y.endByte;
    assert Unstamped(x).log == x.log && Unstamped(y).log == y.log;
    assert Unstamped(x).rerunTime == x.rerunTime && Unstamped(y).rerunTime == y.rerunTime;
  }

  lemma SameButTimesAppend(a: seq<LogRow>, b: seq<LogRow>, c: seq<LogRow>, d: seq<LogRow>)
    requires SameButTimes(a, b) && SameButTimes(c, d)
    ensures SameButTimes(a + c, b + d)
  {
    forall i | 0 <= i < |a + c|
      ensures Unstamped((a + c)[i]) == Unstamped((b + d)[i])
    {
      if i < |a| {
        assert (a + c)[i] == a[i] && (b + d)[i] == b[i];
      } else {
        assert (a + c)[i] == c[i - |a|] && (b + d)[i] == d[i - |a|];
      }
    }
  }

  /** The writer's stamps are the only difference from the chunk rows. */
  lemma StampSameButTimes(before: seq<LogRow>, rows: seq<LogRow>, times: nat -> int)
    ensures SameButTimes(before + Stamp(rows, times), before + rows)
  {
    forall i | 0 <= i < |before + rows|
      ensures Unstamped((before + Stamp(rows, times))[i]) == Unstamped((before + rows)[i])
    {
      if i >= |before| {
        assert (before + Stamp(rows, times))[i] == rows[i - |before|].(uploadTime := times(i - |before|));
      }
    }
  }

  lemma {:induction false} MaxJobRerunIgnoresTimes(a: seq<LogRow>, b: seq<LogRow>, execId: int, name: string, attempt: int)
    requires SameButTimes(a, b)
    ensures MaxJobRerun(a, execId, name, attempt) == MaxJobRerun(b, execId, name, attempt)
    decreases |a|
  {
    if |a| > 0 {
      UnstampedColumns(a[0], b[0]);
      assert SameButTimes(a[1..], b[1..]) by {
        forall i | 0 <= i < |a[1..]|
          ensures Unstamped(a[1..][i]) == Unstamped(b[1..][i])
        {
          assert a[1..][i] == a[i + 1] && b[1..][i] == b[i + 1];
        }
      }
      MaxJobRerunIgnoresTimes(a[1..], b[1..], execId, name, attempt);
    }
  }

  lemma {:induction false} SelectIgnoresTimes(a: seq<LogRow>, b: seq<LogRow>, execId: int, name: string, attempt: int,
                                              rerun: int, reqStart: int, reqEnd: int)
    requires SameButTimes(a, b)
    ensures SameButTimes(SelectLogs(a, execId, name, attempt, rerun, reqStart, reqEnd),
                         SelectLogs(b, execId, name, attempt, rerun, reqStart, reqEnd))
    decreases |a|
  {
    if |a| > 0 {
      UnstampedColumns(a[0], b[0]);
      assert SameButTimes(a[1..], b[1..]) by {
        forall i | 0 <= i < |a[1..]|
          ensures Unstamped(a[1..][i]) == Unstamped(b[1..][i])
        {
          assert a[1..][i] == a[i + 1] && b[1..][i] == b[i + 1];
        }
      }
      SelectIgnoresTimes(a[1..], b[1..], execId, name, attempt, rerun, reqStart, reqEnd);
      var ha := if Selected(a[0], execId, name, attempt, rerun, reqStart, reqEnd) then [a[0]] else [];
      var hb := if Selected(b[0], execId, name, attempt, rerun, reqStart, reqEnd) then [b[0]] else [];
      SameButTimesAppend(ha, hb, SelectLogs(a[1..], execId, name, attempt, rerun, reqStart, reqEnd),
                         SelectLogs(b[1..], execId, name, attempt, rerun, reqStart, reqEnd));
    }
  }

  lemma {:induction false} InsertIgnoresTimes(x: LogRow, y: LogRow, s: seq<LogRow>, t: seq<LogRow>)
    requires SortedByStart(s) && SortedByStart(t)
    requires Unstamped(x) == Unstamped(y) && SameButTimes(s, t)
    ensures SameButTimes(InsertByStart(x, s), InsertByStart(y, t))
    decreases |s|
  {
    UnstampedColumns(x, y);
    if |s| > 0 {
      UnstampedColumns(s[0], t[0]);
      if x.startByte <= s[0].startByte {
        SameButTimesAppend([x], [y], s, t);
      } else {
        assert SameButTimes(s[1..], t[1..]) by {
          forall i | 0 <= i < |s[1..]|
            ensures Unstamped(s[1..][i]) == Unstamped(t[1..][i])
          {
            assert s[1..][i] == s[i + 1] && t[1..][i] == t[i + 1];
          }
        }
        InsertIgnoresTimes(x, y, s[1..], t[1..]);
        SameButTimesAppend([s[0]], [t[0]], InsertByStart(x, s[1..]), InsertByStart(y, t[1..]));
      }
    }
  }

  lemma {:induction false} SortIgnoresTimes(a: seq<LogRow>, b: seq<LogRow>)
    requires SameButTimes(a, b)
    ensures SameButTimes(SortByStart(a), SortByStart(b))
    decreases |a|
  {
    if |a| > 0 {
      assert SameButTimes(a[1..], b[1..]) by {
        forall i | 0 <= i < |a[1..]|
          ensures Unstamped(a[1..][i]) == Unstamped(b[1..][i])
        {
          assert a[1..][i] == a[i + 1] && b[1..][i] == b[i + 1];
        }
      }
      SortIgnoresTimes(a[1..], b[1..]);
      InsertIgnoresTimes(a[0], b[0], SortByStart(a[1..]), SortByStart(b[1..]));
    }
  }

  lemma {:induction false} AssembleIgnoresTimes(a: seq<LogRow>, b: seq<LogRow>, reqStart: int, reqEnd: int)
    requires SameButTimes(a, b)
    ensures Assemble(a, reqStart, reqEnd) == Assemble(b, reqStart, reqEnd)
    decreases |a|
  {
    if |a| > 0 {
      var n := |a| - 1;
      UnstampedColumns(a[n], b[n]);
      assert SliceOf(a[n], reqStart, reqEnd) == SliceOf(b[n], reqStart, reqEnd);
      assert SameButTimes(a[..n], b[..n]) by {
        forall i | 0 <= i < n
          ensures Unstamped(a[..n][i]) == Unstamped(b[..n][i])
        {
          assert a[..n][i] == a[i] && b[..n][i] == b[i];
        }
      }
      AssembleIgnoresTimes(a[..n], b[..n], reqStart, reqEnd);
    }
  }

  lemma FetchRowsIgnoresTimes(a: seq<LogRow>, b: seq<LogRow>, execId: int, name: string, attempt: int,
                              rerun: int, startByte: int, length: int)
    requires SameButTimes(a, b)
    ensures SameButTimes(FetchLogsRows(a, execId, name, attempt, rerun, startByte, length),
                         FetchLogsRows(b, execId, name, attempt, rerun, startByte, length))
  {
    SelectIgnoresTimes(a, b, execId, name, attempt, rerun, startByte, startByte + length);
    SortIgnoresTimes(SelectLogs(a, execId, name, attempt, rerun, startByte, startByte + length),
                     SelectLogs(b, execId, name, attempt, rerun, startByte, startByte + length));
  }

  lemma HandleIgnoresTimes(a: seq<LogRow>, b: seq<LogRow>, reqStart: int, reqEnd: int, utf8Range: seq<byte> -> (int, int))
    requires SameButTimes(a, b)
    ensures HandleLogsResult(a, reqStart, reqEnd, utf8Range) == HandleLogsResult(b, reqStart, reqEnd, utf8Range)
  {
    AssembleIgnoresTimes(a, b, reqStart, reqEnd);
  }

  /** The reader's answer is the handler's answer over the rows of the
      generation the first query returns. */
  lemma FetchLogsGeneration(rows: seq<LogRow>, execId: int, name: string, attempt: int, startByte: int, length: int,
                            utf8Range: seq<byte> -> (int, int)) returns (rerun: int)
    ensures JobMaxRerunHandler(AggregateResult(MaxJobRerun(rows, execId, name, attempt))) == Success(rerun)
    ensures FetchLogsResult(rows, execId, name, attempt, startByte, length, utf8Range)
         == HandleLogsResult(FetchLogsRows(rows, execId, name, attempt, rerun, startByte, length),
                             startByte, startByte + length, utf8Range)
  {
    JobMaxRerunAlwaysAnswers(rows, execId, name, attempt);
    rerun := JobMaxRerunHandler(AggregateResult(MaxJobRerun(rows, execId, name, attempt))).value;
    FetchLogsThroughRows(rows, execId, name, attempt, startByte, length, utf8Range, rerun,
                         FetchLogsRows(rows, execId, name, attempt, rerun, startByte, length));
  }

  lemma GenerationIgnoresTimes(a: seq<LogRow>, b: seq<LogRow>, execId: int, name: string, attempt: int,
                                rerun: int, startByte: int, length: int, utf8Range: seq<byte> -> (int, int))
    requires SameButTimes(a, b)
    ensures HandleLogsResult(FetchLogsRows(a, execId, name, attempt, rerun, startByte, length),
                             startByte, startByte + length, utf8Range)
         == HandleLogsResult(FetchLogsRows(b, execId, name, attempt, rerun, startByte, length),
                             startByte, startByte + length, utf8Range)
  {
    FetchRowsIgnoresTimes(a, b, execId, name, attempt, rerun, startByte, length);
    HandleIgnoresTimes(FetchLogsRows(a, execId, name, attempt, rerun, startByte, length),
                       FetchLogsRows(b, execId, name, attempt, rerun, startByte, length),
                       startByte, startByte + length, utf8Range);
  }

  /** `fetchLogs` never looks at `upload_time`: two tables that differ only
      in upload times read back alike. */
  lemma FetchLogsIgnoresUploadTime(a: seq<LogRow>, b: seq<LogRow>, execId: int, name: string, attempt: int,
                                   startByte: int, length: int, utf8Range: seq<byte> -> (int, int))
    requires SameButTimes(a, b)
    ensures FetchLogsResult(a, execId, name, attempt, startByte, length, utf8Range)
         == FetchLogsResult(b, execId, name, attempt, startByte, length, utf8Range)
  {
    var ra := FetchLogsGeneration(a, execId, name, attempt, startByte, length, utf8Range);
    var rb := FetchLogsGeneration(b, execId, name, attempt, startByte, length, utf8Range);
    MaxJobRerunIgnoresTimes(a, b, execId, name, attempt);
    GenerationIgnoresTimes(a, b, execId, name, attempt, ra, startByte, length, utf8Range);
  }

  /** Log round trip with rerun isolation: an upload's rows, each stamped
      with the time its part was stored, follow any rows of earlier
      generations (rows of the same key carry a lower generation); reading
      any window back then gives what `ExpectedRead` says, whatever the
      earlier generations hold and whenever the parts were stored. */
  lemma WriteThenRead(before: seq<LogRow>, tag: LogTag, data: seq<byte>, times: nat -> int,
                      startByte: int, length: int, utf8Range: seq<byte> -> (int, int))
    requires |data| > 0
    requires forall r :: r in before && KeyMatches(r, tag.execId, tag.name, tag.attempt) ==> r.rerunTime < tag.rerunTime
    requires 0 <= startByte && 0 <= length
    ensures FetchLogsResult(before + Stamp(ChunkRows(tag, Split(data, 0)), times), tag.execId, tag.name, tag.attempt,
                            startByte, length, utf8Range)
         == ExpectedRead(data, startByte, length, utf8Range)
  {
    var rows := ChunkRows(tag, Split(data, 0));
    StampSameButTimes(before, rows, times);
    FetchLogsIgnoresUploadTime(before + Stamp(rows, times), before + rows, tag.execId, tag.name, tag.attempt,
                               startByte, length, utf8Range);
    ChunksThenRead(before, tag, data, startByte, length, utf8Range);
  }

  // =====================================================================
  // Retention

  /** `DELETE FROM execution_logs WHERE upload_time < ?`: the rows that stay,
      in order. */
  function KeepUploadedSince(rows: seq<LogRow>, millis: int): (kept: seq<LogRow>)
    ensures |kept| <= |rows|
    ensures forall r :: r in kept ==> r in rows && r.uploadTime >= millis
    ensures forall r :: r in rows && r.uploadTime >= millis ==> r in kept
    decreases |rows|
  {
    if |rows| == 0 then []
    else (if rows[0].uploadTime >= millis then [rows[0]] else []) + KeepUploadedSince(rows[1..], millis)
  }

  function CountUploadedBefore(rows: seq<LogRow>, millis: int): nat
    decreases |rows|
  {
    if |rows| == 0 then 0
    else (if rows[0].uploadTime < millis then 1 else 0) + CountUploadedBefore(rows[1..], millis)
  }

  /** The reported number of deleted rows is the number of rows older than
      the cut-off. */
  lemma {:induction false} RetentionCount(rows: seq<LogRow>, millis: int)
    ensures |rows| - |KeepUploadedSince(rows, millis)| == CountUploadedBefore(rows, millis)
    decreases |rows|
  {
    if |rows| > 0 {
      RetentionCount(rows[1..], millis);
    }
  }

  /** Each part of an upload carries its own upload time, so the retention
      delete may remove the earlier parts of an upload and keep its later
      ones: part k stays exactly when it was stored at or after the
      cut-off. */
  lemma RetentionByPart(before: seq<LogRow>, rows: seq<LogRow>, times: nat -> int, millis: int, k: int)
    requires 0 <= k < |rows|
    ensures Stamp(rows, times)[k] in KeepUploadedSince(before + Stamp(rows, times), millis) <==> times(k) >= millis
  {
    assert (before + Stamp(rows, times))[|before| + k] == Stamp(rows, times)[k];
  }
}
