/** The execution-state store itself: the loader object over its four
    tables. Each SQL table is a sequence of rows held in a field; every
    statement the loader runs is a method that reassigns the table it touches,
    and every result-set handler is a method or a function over the rows the
    statement selects. Connections, commits and the wrapping of SQL errors are
    not modelled: a failing statement is a `Failure`. */
module ExecutorLoader {
  import opened Common
  import opened Codec
  import opened Flows
  import opened LogChunks
  import opened FlowHistory

  // =====================================================================
  // Rows of the tables other than `execution_logs`

  /** One row of `execution_flows`. Columns the INSERT leaves out read as 0
      until the UPDATE that follows it; a missing `flow_data` is `None`. */
  datatype FlowRow = FlowRow(
    execId: int,
    projectId: int,
    flowId: string,
    version: int,
    status: int,
    submitTime: int,
    submitUser: string,
    updateTime: int,
    startTime: int,
    endTime: int,
    encType: int,
    flowData: Option<seq<byte>>,
    customTimeFlag: Option<string>)

  /** One row of `active_executing_flows`: which executor owns a running
      execution, and when it last reported. */
  datatype ExecutionReference = ExecutionReference(execId: int, host: string, port: int, updateTime: int)

  /** One row of `execution_jobs`. */
  datatype JobRow = JobRow(
    execId: int,
    projectId: int,
    version: int,
    flowId: string,
    jobId: string,
    startTime: int,
    endTime: int,
    status: int,
    inputParams: Option<seq<byte>>,
    outputParams: Option<seq<byte>>,
    attempt: int)

  /** What the loader reads from an `ExecutableNode`. `flowKey` is the key the
      node's rows are written under (its parent flow's path). */
  datatype ExecutableNode = ExecutableNode(
    execId: int,
    projectId: int,
    version: int,
    flowKey: string,
    jobId: string,
    startTime: int,
    endTime: int,
    status: Status,
    attempt: int,
    outputProps: Option<Props>)

  // =====================================================================
  // Rows written by the flow statements

  /** The row `INSERT_EXECUTABLE_FLOW` adds for `flow` under the id the
      table assigns, submitted at `now`. */
  function InsertedFlowRow(id: int, flow: Flow, now: int): (row: FlowRow)
    ensures row.execId == id && row.status == StatusNum(Preparing)
    ensures row.submitTime == now && row.updateTime == now
    ensures row.flowData == None
  {
    FlowRow(id, flow.projectId, flow.flowId, flow.version, StatusNum(Preparing), now,
            flow.submitUser, now, 0, 0, 0, None, flow.customTimeFlag)
  }

  /** `UPDATE_EXECUTABLE_FLOW_DATA` applied to one row whose id matches. */
  function UpdatedFlowRow(row: FlowRow, flow: Flow, enc: EncodingType): FlowRow {
    row.(status := StatusNum(flow.status), updateTime := flow.updateTime,
         startTime := flow.startTime, endTime := flow.endTime,
         encType := NumVal(enc), flowData := Some(EncodeFlowData(flow, enc)))
  }

  /** `UPDATE ... WHERE exec_id=?`: every row with the flow's id is rewritten,
      every other row is left alone. */
  function UpdateFlowRows(rows: seq<FlowRow>, flow: Flow, enc: EncodingType): (rows': seq<FlowRow>)
    ensures |rows'| == |rows|
  {
    seq(|rows|, i requires 0 <= i < |rows| =>
      if rows[i].execId == flow.execId then UpdatedFlowRow(rows[i], flow, enc) else rows[i])
  }

  /** After the update, the payload of a rewritten row decodes to the flow,
      and its status and time columns agree with the decoded payload: the
      redundant columns never drift from `flow_data`. Rows of other ids keep
      their contents. */
  lemma UpdateFlowRowsAgree(rows: seq<FlowRow>, flow: Flow, enc: EncodingType, i: int)
    requires 0 <= i < |rows|
    ensures var r := UpdateFlowRows(rows, flow, enc)[i];
      if rows[i].execId == flow.execId then
        && r.flowData.Some?
        && DecodeFlowData(r.encType, r.flowData.value) == Some(flow)
        && r.status == StatusNum(flow.status) && r.updateTime == flow.updateTime
        && r.startTime == flow.startTime && r.endTime == flow.endTime
        && r.execId == rows[i].execId && r.submitTime == rows[i].submitTime
      else r == rows[i]
  {
    if rows[i].execId == flow.execId {
      FlowDataRoundTrip(flow, enc);
    }
  }

  // =====================================================================
  // Decoding result sets of flows

  /** One row of `SELECT exec_id, enc_type, flow_data ...`. */
  datatype FlowDataRow = FlowDataRow(execId: int, encType: int, flowData: Option<seq<byte>>)

  function FlowDataOf(r: FlowRow): FlowDataRow {
    FlowDataRow(r.execId, r.encType, r.flowData)
  }

  /** `FetchExecutableFlows.handle`: rows without a payload are skipped, every
      other payload is decoded under its own tag; the first undecodable one
      fails the whole list. */
  function DecodeFlowList(rs: seq<FlowDataRow>): Result<seq<Flow>>
    decreases |rs|
  {
    if |rs| == 0 then Success([])
    else
      match DecodeFlowList(rs[..|rs| - 1])
      case Failure(e) => Failure(e)
      case Success(fs) =>
        var r := rs[|rs| - 1];
        if r.flowData.None? then Success(fs)
        else
          match DecodeFlowData(r.encType, r.flowData.value)
          case None => Failure(DecodeError)
          case Some(f) => Success(fs + [f])
  }

  /** The number of rows that carry a payload. */
  function PayloadCount(rs: seq<FlowDataRow>): nat
    decreases |rs|
  {
    if |rs| == 0 then 0 else PayloadCount(rs[..|rs| - 1]) + (if rs[|rs| - 1].flowData.Some? then 1 else 0)
  }

  /** A decoded list holds one flow per row with a payload, in row order. */
  lemma {:induction false} DecodeFlowListCount(rs: seq<FlowDataRow>)
    ensures DecodeFlowList(rs).Success? ==> |DecodeFlowList(rs).value| == PayloadCount(rs)
    decreases |rs|
  {
    if |rs| > 0 {
      DecodeFlowListCount(rs[..|rs| - 1]);
    }
  }

  /** The payload columns of `rows`, as the flow queries select them. */
  function FlowDataRows(rows: seq<FlowRow>): (rs: seq<FlowDataRow>)
    ensures |rs| == |rows|
    ensures forall i :: 0 <= i < |rows| ==> rs[i] == FlowDataOf(rows[i])
  {
    seq(|rows|, i requires 0 <= i < |rows| => FlowDataOf(rows[i]))
  }

  /** The payload columns the update writes for each of `flows`. */
  function WrittenFlowRows(flows: seq<Flow>, enc: EncodingType): (rs: seq<FlowDataRow>)
    ensures |rs| == |flows|
    decreases |flows|
  {
    if |flows| == 0 then []
    else WrittenFlowRows(flows[..|flows| - 1], enc) + [WrittenRow(flows[|flows| - 1], enc)]
  }

  /** The payload columns the update writes for one flow. */
  function WrittenRow(f: Flow, enc: EncodingType): FlowDataRow {
    FlowDataRow(f.execId, NumVal(enc), Some(EncodeFlowData(f, enc)))
  }

  lemma WrittenRowDecodes(f: Flow, enc: EncodingType)
    ensures WrittenRow(f, enc).flowData.Some?
    ensures DecodeFlowData(WrittenRow(f, enc).encType, WrittenRow(f, enc).flowData.value) == Some(f)
  {
    FlowDataRoundTrip(f, enc);
  }

  /** Reading back rows the update wrote gives the flows that were written,
      in order. */
  lemma {:induction false} DecodeWrittenFlows(flows: seq<Flow>, enc: EncodingType)
    ensures DecodeFlowList(WrittenFlowRows(flows, enc)) == Success(flows)
    decreases |flows|
  {
    if |flows| > 0 {
      var init := flows[..|flows| - 1];
      DecodeWrittenFlows(init, enc);
      DecodeWrittenSnoc(flows, enc);
    }
  }

  lemma DecodeWrittenSnoc(flows: seq<Flow>, enc: EncodingType)
    requires |flows| > 0
    requires DecodeFlowList(WrittenFlowRows(flows[..|flows| - 1], enc)) == Success(flows[..|flows| - 1])
    ensures DecodeFlowList(WrittenFlowRows(flows, enc)) == Success(flows)
  {
    var init := flows[..|flows| - 1];
    var f := flows[|flows| - 1];
    var rs, r := WrittenFlowRows(init, enc), WrittenRow(f, enc);
    assert WrittenFlowRows(flows, enc) == rs + [r];
    WrittenRowDecodes(f, enc);
    DecodeFlowListSnoc(rs, r, init, f);
    InitLast(flows);
  }

  lemma InitLast<T>(s: seq<T>)
    requires |s| > 0
    ensures s[..|s| - 1] + [s[|s| - 1]] == s
  {
  }

  lemma DecodeFlowListSnoc(rs: seq<FlowDataRow>, r: FlowDataRow, fs: seq<Flow>, f: Flow)
    requires DecodeFlowList(rs) == Success(fs)
    requires r.flowData.Some? && DecodeFlowData(r.encType, r.flowData.value) == Some(f)
    ensures DecodeFlowList(rs + [r]) == Success(fs + [f])
  {
    assert (rs + [r])[..|rs|] == rs;
  }

  /** Uploading a flow under a fresh id and then fetching that id gives back
      exactly the uploaded flow: the INSERT adds the only row of the id, the
      UPDATE writes its payload, and the payload decodes to the flow. */
  lemma UploadThenFetch(rows: seq<FlowRow>, flow: Flow, now: int, id: int, enc: EncodingType)
    requires forall i :: 0 <= i < |rows| ==> rows[i].execId != id
    requires IsInt32(id)
    ensures var uploaded := flow.(status := Preparing, execId := Int32(id));
      DecodeFlowList(FlowRowsOf(FlowDataRows(UpdateFlowRows(rows + [InsertedFlowRow(id, flow, now)], uploaded, enc)), id))
        == Success([uploaded])
  {
    var uploaded := flow.(status := Preparing, execId := Int32(id));
    assert uploaded.execId == id;
    UpdateThenSelect(rows, InsertedFlowRow(id, flow, now), uploaded, enc);
  }

  lemma UpdateThenSelect(rows: seq<FlowRow>, inserted: FlowRow, flow: Flow, enc: EncodingType)
    requires forall i :: 0 <= i < |rows| ==> rows[i].execId != flow.execId
    requires inserted.execId == flow.execId
    ensures DecodeFlowList(FlowRowsOf(FlowDataRows(UpdateFlowRows(rows + [inserted], flow, enc)), flow.execId))
        == Success([flow])
  {
    var written := WrittenRow(flow, enc);
    UpdateFreshRow(rows, inserted, flow, enc);
    FlowDataRowsSnoc(rows, UpdatedFlowRow(inserted, flow, enc));
    assert FlowDataOf(UpdatedFlowRow(inserted, flow, enc)) == written;
    SelectOnlyRow(FlowDataRows(rows), written, flow.execId);
    WrittenRowDecodes(flow, enc);
    DecodeOne(written, flow);
  }

  lemma DecodeOne(written: FlowDataRow, f: Flow)
    requires written.flowData.Some? && DecodeFlowData(written.encType, written.flowData.value) == Some(f)
    ensures DecodeFlowList([written]) == Success([f])
  {
    DecodeFlowListSnoc([], written, [], f);
    assert [] + [written] == [written];
    assert [] + [f] == [f];
  }

  /** Selecting the id of a row appended after rows of other ids gives that
      row alone. */
  lemma SelectOnlyRow(rs: seq<FlowDataRow>, written: FlowDataRow, id: int)
    requires forall i :: 0 <= i < |rs| ==> rs[i].execId != id
    requires written.execId == id
    ensures FlowRowsOf(rs + [written], id) == [written]
  {
    FlowRowsOfAppend(rs, [written], id);
    FlowRowsOfNone(rs, id);
    assert FlowRowsOf([written], id) == [written] + FlowRowsOf([], id);
  }

  /** The UPDATE after an INSERT under a fresh id touches the new row only. */
  lemma UpdateFreshRow(rows: seq<FlowRow>, row: FlowRow, flow: Flow, enc: EncodingType)
    requires forall i :: 0 <= i < |rows| ==> rows[i].execId != flow.execId
    requires row.execId == flow.execId
    ensures UpdateFlowRows(rows + [row], flow, enc) == rows + [UpdatedFlowRow(row, flow, enc)]
  {
  }

  lemma FlowDataRowsSnoc(rows: seq<FlowRow>, row: FlowRow)
    ensures FlowDataRows(rows + [row]) == FlowDataRows(rows) + [FlowDataOf(row)]
  {
  }

  lemma {:induction false} FlowRowsOfNone(rows: seq<FlowDataRow>, id: int)
    requires forall i :: 0 <= i < |rows| ==> rows[i].execId != id
    ensures FlowRowsOf(rows, id) == []
    decreases |rows|
  {
    if |rows| > 0 {
      FlowRowsOfNone(rows[1..], id);
    }
  }

  lemma {:induction false} FlowRowsOfAppend(a: seq<FlowDataRow>, b: seq<FlowDataRow>, id: int)
    ensures FlowRowsOf(a + b, id) == FlowRowsOf(a, id) + FlowRowsOf(b, id)
    decreases |a|
  {
    if |a| == 0 {
      assert a + b == b;
    } else {
      assert (a + b)[0] == a[0];
      assert (a + b)[1..] == a[1..] + b;
      FlowRowsOfAppend(a[1..], b, id);
    }
  }

  /** One row of the active-flows join: the payload columns of the flow and
      the reference columns of the executor that owns it. */
  datatype ActiveRow = ActiveRow(execId: int, encType: int, flowData: Option<seq<byte>>,
                                 host: string, port: int, updateTime: int)

  /** `FetchActiveExecutableFlows.handle`: a row without a payload maps its
      id to null; any other row maps its id to the reference and the decoded
      flow. A later row of the same id replaces an earlier one. */
  function DecodeActiveMap(rs: seq<ActiveRow>): Result<map<int, Option<(ExecutionReference, Flow)>>>
    decreases |rs|
  {
    if |rs| == 0 then Success(map[])
    else
      match DecodeActiveMap(rs[..|rs| - 1])
      case Failure(e) => Failure(e)
      case Success(m) =>
        var r := rs[|rs| - 1];
        if r.flowData.None? then Success(m[r.execId := None])
        else
          match DecodeFlowData(r.encType, r.flowData.value)
          case None => Failure(DecodeError)
          case Some(f) => Success(m[r.execId := Some((ExecutionReference(r.execId, r.host, r.port, r.updateTime), f))])
  }

  /** The map's keys are exactly the ids of the rows, and a null payload is
      what maps an id to null. */
  lemma {:induction false} DecodeActiveMapKeys(rs: seq<ActiveRow>)
    ensures DecodeActiveMap(rs).Success? ==>
      && (forall id :: id in DecodeActiveMap(rs).value <==> exists i :: 0 <= i < |rs| && rs[i].execId == id)
      && (|rs| > 0 ==> DecodeActiveMap(rs).value[rs[|rs| - 1].execId].None? == rs[|rs| - 1].flowData.None?)
    decreases |rs|
  {
    if |rs| > 0 {
      var init := rs[..|rs| - 1];
      DecodeActiveMapKeys(init);
      if DecodeActiveMap(rs).Success? {
        var m := DecodeActiveMap(rs).value;
        forall id
          ensures id in m <==> exists i :: 0 <= i < |rs| && rs[i].execId == id
        {
          if id in m && id != rs[|rs| - 1].execId {
            var j :| 0 <= j < |init| && init[j].execId == id;
            assert rs[j].execId == id;
          }
          if (exists i :: 0 <= i < |rs| && rs[i].execId == id) && id != rs[|rs| - 1].execId {
            var j :| 0 <= j < |rs| && rs[j].execId == id;
            assert init[j].execId == id;
          }
        }
      }
    }
  }

  /** The reference columns of a joined row, as the handler builds them. */
  function RefOf(r: ActiveRow): ExecutionReference {
    ExecutionReference(r.execId, r.host, r.port, r.updateTime)
  }

  /** Row `j` is the last row of its id in the result set. */
  predicate LastOfId(rs: seq<ActiveRow>, j: int)
    requires 0 <= j < |rs|
  {
    forall k :: j < k < |rs| ==> rs[k].execId != rs[j].execId
  }

  /** What the map holds for the id of row `r`: null when `r` has no
      payload, and otherwise the reference of `r` with its decoded payload. */
  predicate EntryOf(m: map<int, Option<(ExecutionReference, Flow)>>, r: ActiveRow) {
    && r.execId in m
    && (r.flowData.None? ==> m[r.execId] == None)
    && (r.flowData.Some? ==>
          && DecodeFlowData(r.encType, r.flowData.value).Some?
          && m[r.execId] == Some((RefOf(r), DecodeFlowData(r.encType, r.flowData.value).value)))
  }

  /** Every payload of the result set decodes. */
  predicate PayloadsDecode(rs: seq<ActiveRow>) {
    forall i :: 0 <= i < |rs| && rs[i].flowData.Some? ==> DecodeFlowData(rs[i].encType, rs[i].flowData.value).Some?
  }

  /** The handler succeeds exactly when every payload decodes. */
  lemma {:induction false} DecodeActiveMapSuccess(rs: seq<ActiveRow>)
    ensures DecodeActiveMap(rs).Success? <==> PayloadsDecode(rs)
    decreases |rs|
  {
    if |rs| > 0 {
      var n := |rs| - 1;
      var init := rs[..n];
      DecodeActiveMapSuccess(init);
      assert forall i :: 0 <= i < n ==> init[i] == rs[i];
      if PayloadsDecode(init) && (rs[n].flowData.Some? ==> DecodeFlowData(rs[n].encType, rs[n].flowData.value).Some?) {
        forall i | 0 <= i < |rs| && rs[i].flowData.Some?
          ensures DecodeFlowData(rs[i].encType, rs[i].flowData.value).Some?
        {
          if i < n {
            assert init[i] == rs[i];
          }
        }
      }
    }
  }

  /** The entry of an id is decided by the last row of that id: it is null
      exactly when that row has no payload, and otherwise pairs that row's
      reference with its decoded flow. */
  lemma {:induction false} DecodeActiveMapEntry(rs: seq<ActiveRow>, j: int)
    requires 0 <= j < |rs| && LastOfId(rs, j)
    ensures DecodeActiveMap(rs).Success? ==> EntryOf(DecodeActiveMap(rs).value, rs[j])
    decreases |rs|
  {
    var n := |rs| - 1;
    var init := rs[..n];
    if DecodeActiveMap(rs).Success? && j < n {
      assert init[j] == rs[j];
      assert LastOfId(init, j) by {
        forall k | j < k < |init|
          ensures init[k].execId != init[j].execId
        {
          assert init[k] == rs[k];
        }
      }
      DecodeActiveMapEntry(init, j);
      assert rs[n].execId != rs[j].execId;
    }
  }

  /** The last row of an id that occurs in the result set. */
  lemma {:induction false} LastIndexOf(rs: seq<ActiveRow>, id: int) returns (j: nat)
    requires exists i :: 0 <= i < |rs| && rs[i].execId == id
    ensures j < |rs| && rs[j].execId == id && LastOfId(rs, j)
    decreases |rs|
  {
    var n := |rs| - 1;
    if rs[n].execId == id {
      j := n;
    } else {
      var init := rs[..n];
      var i :| 0 <= i < |rs| && rs[i].execId == id;
      assert init[i] == rs[i];
      j := LastIndexOf(init, id);
      assert init[j] == rs[j];
      forall k | j < k < |rs|
        ensures rs[k].execId != rs[j].execId
      {
        if k < n {
          assert init[k] == rs[k];
        }
      }
    }
  }

  /** Round trip through the join: after the update writes a flow, the
      active map has its id exactly when some row of the id exists and an
      executor owns it, and then maps the id to that flow paired with one of
      the execution's references. */
  lemma ActiveAfterUpdate(rows: seq<FlowRow>, refs: seq<ExecutionReference>, flow: Flow, enc: EncodingType)
    ensures var m := DecodeActiveMap(ActiveJoin(UpdateFlowRows(rows, flow, enc), refs));
      m.Success? ==>
        && (flow.execId in m.value <==>
              (exists i :: 0 <= i < |rows| && rows[i].execId == flow.execId) && HasReference(refs, flow.execId))
        && (flow.execId in m.value ==>
              && m.value[flow.execId].Some?
              && m.value[flow.execId].value.1 == flow
              && m.value[flow.execId].value.0 in refs
              && m.value[flow.execId].value.0.execId == flow.execId)
  {
    var updated := UpdateFlowRows(rows, flow, enc);
    var rs := ActiveJoin(updated, refs);
    var id := flow.execId;
    if DecodeActiveMap(rs).Success? {
      var m := DecodeActiveMap(rs).value;
      DecodeActiveMapKeys(rs);
      if id in m {
        var j := LastIndexOf(rs, id);
        var i, k := JoinedFrom(updated, refs, j);
        assert updated[i] == UpdatedFlowRow(rows[i], flow, enc);
        FlowDataRoundTrip(flow, enc);
        DecodeActiveMapEntry(rs, j);
        assert RefOf(rs[j]) == refs[k];
        assert HasReference(refs, id);
      }
      if (exists i :: 0 <= i < |rows| && rows[i].execId == id) && HasReference(refs, id) {
        var i :| 0 <= i < |rows| && rows[i].execId == id;
        var k :| 0 <= k < |refs| && refs[k].execId == id;
        var at := JoinedInto(updated, refs, i, k);
        assert rs[at].execId == id;
      }
    }
  }

  // =====================================================================
  // Rows of the job statements

  /** The row `INSERT_EXECUTION_NODE` adds: input properties are stored
      compressed when present. */
  function NodeRow(node: ExecutableNode, inputProps: Option<Props>): JobRow {
    JobRow(node.execId, node.projectId, node.version, node.flowKey, node.jobId,
           node.startTime, node.endTime, StatusNum(node.status),
           if inputProps.Some? then Some(EncodeProps(inputProps.value)) else None,
           None, node.attempt)
  }

  predicate NodeKeyMatches(r: JobRow, node: ExecutableNode) {
    r.execId == node.execId && r.flowId == node.flowKey && r.jobId == node.jobId && r.attempt == node.attempt
  }

  /** `UPSERT_EXECUTION_NODE`: the rows of the node's key take its times,
      status and (compressed, or null) output properties. */
  function UpdateJobRows(rows: seq<JobRow>, node: ExecutableNode): (rows': seq<JobRow>)
    ensures |rows'| == |rows|
  {
    seq(|rows|, i requires 0 <= i < |rows| =>
      if NodeKeyMatches(rows[i], node) then
        rows[i].(startTime := node.startTime, endTime := node.endTime, status := StatusNum(node.status),
                 outputParams := if node.outputProps.Some? then Some(EncodeProps(node.outputProps.value)) else None)
      else rows[i])
  }

  /** The index of the first row of `(execId, jobId)`, if any: the row the
      property queries read (they ignore the attempt and the flow key). */
  function FirstJobRow(rows: seq<JobRow>, execId: int, jobId: string): (k: Option<nat>)
    ensures k.Some? ==> k.value < |rows| && rows[k.value].execId == execId && rows[k.value].jobId == jobId
    ensures k.Some? ==> forall j :: 0 <= j < k.value ==> !(rows[j].execId == execId && rows[j].jobId == jobId)
    ensures k.None? ==> forall j :: 0 <= j < |rows| ==> !(rows[j].execId == execId && rows[j].jobId == jobId)
    decreases |rows|
  {
    if |rows| == 0 then None
    else if rows[0].execId == execId && rows[0].jobId == jobId then Some(0)
    else
      match FirstJobRow(rows[1..], execId, jobId)
      case None => None
      case Some(k) => Some(k + 1)
  }

  /** Decoding one stored property blob: null stays null; a blob that does
      not inflate and parse is an error. */
  function DecodePropsColumn(blob: Option<seq<byte>>): Result<Option<Props>> {
    match blob
    case None => Success(None)
    case Some(b) =>
      match DecodeProps(b)
      case None => Failure(DecodeError)
      case Some(p) => Success(Some(p))
  }

  /** `fetchExecutionJobInputProps`: null when no row matches. */
  function FetchInputProps(rows: seq<JobRow>, execId: int, jobId: string): Result<Option<Props>> {
    match FirstJobRow(rows, execId, jobId)
    case None => Success(None)
    case Some(k) => DecodePropsColumn(rows[k].inputParams)
  }

  /** `fetchExecutionJobOutputProps`: null when no row matches. */
  function FetchOutputProps(rows: seq<JobRow>, execId: int, jobId: string): Result<Option<Props>> {
    match FirstJobRow(rows, execId, jobId)
    case None => Success(None)
    case Some(k) => DecodePropsColumn(rows[k].outputParams)
  }

  /** `fetchExecutionJobProps`: both columns of the first row of
      `(execId, jobId)`, a pair of nulls when there is none; a payload that
      does not decode fails the pair. */
  function FetchJobProps(rows: seq<JobRow>, execId: int, jobId: string): (r: Result<(Option<Props>, Option<Props>)>)
    ensures r.Success? <==> FetchInputProps(rows, execId, jobId).Success? && FetchOutputProps(rows, execId, jobId).Success?
    ensures r.Success? ==> r.value == (FetchInputProps(rows, execId, jobId).value, FetchOutputProps(rows, execId, jobId).value)
  {
    match FirstJobRow(rows, execId, jobId)
    case None => Success((None, None))
    case Some(k) =>
      match DecodePropsColumn(rows[k].inputParams)
      case Failure(e) => Failure(e)
      case Success(input) =>
        match DecodePropsColumn(rows[k].outputParams)
        case Failure(e) => Failure(e)
        case Success(output) => Success((input, output))
  }

  /** Input properties come back as they were uploaded, when the uploaded row
      is the only one of its execution and job; before any upload the answer
      is null rather than an error. */
  lemma InputPropsRoundTrip(rows: seq<JobRow>, node: ExecutableNode, inputProps: Option<Props>)
    requires forall j :: 0 <= j < |rows| ==> !(rows[j].execId == node.execId && rows[j].jobId == node.jobId)
    ensures FetchInputProps(rows, node.execId, node.jobId) == Success(None)
    ensures FetchInputProps(rows + [NodeRow(node, inputProps)], node.execId, node.jobId) == Success(inputProps)
  {
    var rows' := rows + [NodeRow(node, inputProps)];
    var k := FirstJobRow(rows', node.execId, node.jobId);
    assert rows'[|rows|].execId == node.execId && rows'[|rows|].jobId == node.jobId;
    assert k == Some(|rows|);
    if inputProps.Some? {
      PropsRoundTrip(inputProps.value);
    }
  }

  /** Output properties come back as the last update wrote them, under the
      same uniqueness. */
  lemma OutputPropsRoundTrip(rows: seq<JobRow>, node: ExecutableNode, inputProps: Option<Props>)
    requires forall j :: 0 <= j < |rows| ==> !(rows[j].execId == node.execId && rows[j].jobId == node.jobId)
    ensures FetchOutputProps(UpdateJobRows(rows + [NodeRow(node, inputProps)], node), node.execId, node.jobId)
         == Success(node.outputProps)
  {
    var rows' := UpdateJobRows(rows + [NodeRow(node, inputProps)], node);
    assert rows'[|rows|].execId == node.execId && rows'[|rows|].jobId == node.jobId;
    assert forall j :: 0 <= j < |rows| ==> rows'[j] == rows[j];
    assert FirstJobRow(rows', node.execId, node.jobId) == Some(|rows|);
    if node.outputProps.Some? {
      PropsRoundTrip(node.outputProps.value);
    }
  }

  /** `FetchJobStartEndTimeHandler`: the times of the first row of the key,
      or null. */
  function JobStartEndTime(rows: seq<JobRow>, execId: int, jobId: string, attempt: int, flowKey: string): (r: Option<(int, int)>)
    ensures r.None? <==> forall j :: 0 <= j < |rows| ==>
      !(rows[j].execId == execId && rows[j].jobId == jobId && rows[j].attempt == attempt && rows[j].flowId == flowKey)
    ensures r.Some? ==> exists j :: (0 <= j < |rows| && rows[j].execId == execId && rows[j].jobId == jobId
      && rows[j].attempt == attempt && rows[j].flowId == flowKey && r.value == (rows[j].startTime, rows[j].endTime))
    decreases |rows|
  {
    if |rows| == 0 then None
    else if rows[0].execId == execId && rows[0].jobId == jobId && rows[0].attempt == attempt && rows[0].flowId == flowKey
    then Some((rows[0].startTime, rows[0].endTime))
    else
      var r := JobStartEndTime(rows[1..], execId, jobId, attempt, flowKey);
      assert forall j :: 1 <= j < |rows| ==> rows[j] == rows[1..][j - 1];
      r
  }

  // =====================================================================
  // Active references

  /** `DELETE FROM active_executing_flows WHERE exec_id=?`. */
  function WithoutReference(refs: seq<ExecutionReference>, execId: int): (r: seq<ExecutionReference>)
    ensures forall x :: x in r <==> x in refs && x.execId != execId
    ensures |r| <= |refs|
    decreases |refs|
  {
    if |refs| == 0 then []
    else (if refs[0].execId == execId then [] else [refs[0]]) + WithoutReference(refs[1..], execId)
  }

  /** `UPDATE active_executing_flows set update_time=? WHERE exec_id=?`. */
  function TouchReference(refs: seq<ExecutionReference>, execId: int, updateTime: int): (r: seq<ExecutionReference>)
    ensures |r| == |refs|
  {
    seq(|refs|, i requires 0 <= i < |refs| =>
      if refs[i].execId == execId then refs[i].(updateTime := updateTime) else refs[i])
  }

  predicate HasReference(refs: seq<ExecutionReference>, execId: int) {
    exists i :: 0 <= i < |refs| && refs[i].execId == execId
  }

  /** The heartbeat changes the update time of the rows of `execId` and
      nothing else. */
  lemma TouchOnlyThatReference(refs: seq<ExecutionReference>, execId: int, updateTime: int, i: int)
    requires 0 <= i < |refs|
    ensures var r := TouchReference(refs, execId, updateTime)[i];
      && r.execId == refs[i].execId && r.host == refs[i].host && r.port == refs[i].port
      && r.updateTime == (if refs[i].execId == execId then updateTime else refs[i].updateTime)
  {
  }

  // =====================================================================
  // Counting statements

  /** `IntHandler.handle`: 0 for an empty result set, else the first value. */
  function IntHandler(rs: seq<int>): (r: int)
    ensures |rs| == 0 ==> r == 0
    ensures |rs| > 0 ==> r == rs[0]
  {
    if |rs| == 0 then 0 else rs[0]
  }

  function CountFlowsOf(rows: seq<FlowRow>, projectId: int, flowId: string): (n: nat)
    ensures n <= |rows|
    decreases |rows|
  {
    if |rows| == 0 then 0
    else CountFlowsOf(rows[..|rows| - 1], projectId, flowId)
         + (if rows[|rows| - 1].projectId == projectId && rows[|rows| - 1].flowId == flowId then 1 else 0)
  }

  function CountJobsOf(rows: seq<JobRow>, projectId: int, jobId: string): (n: nat)
    ensures n <= |rows|
    decreases |rows|
  {
    if |rows| == 0 then 0
    else CountJobsOf(rows[..|rows| - 1], projectId, jobId)
         + (if rows[|rows| - 1].projectId == projectId && rows[|rows| - 1].jobId == jobId then 1 else 0)
  }

  /** The counts follow the rows: rewriting payloads and statuses changes no
      count of executions of a flow. */
  lemma {:induction false} UpdateKeepsFlowCount(rows: seq<FlowRow>, flow: Flow, enc: EncodingType, projectId: int, flowId: string)
    ensures CountFlowsOf(UpdateFlowRows(rows, flow, enc), projectId, flowId) == CountFlowsOf(rows, projectId, flowId)
    decreases |rows|
  {
    if |rows| > 0 {
      var init := rows[..|rows| - 1];
      UpdateKeepsFlowCount(init, flow, enc, projectId, flowId);
      assert UpdateFlowRows(rows, flow, enc)[..|rows| - 1] == UpdateFlowRows(init, flow, enc);
    }
  }

  /** Inserting an execution adds one to the count of its project and flow
      and leaves every other count alone. */
  lemma InsertFlowCount(rows: seq<FlowRow>, id: int, flow: Flow, now: int, projectId: int, flowId: string)
    ensures CountFlowsOf(rows + [InsertedFlowRow(id, flow, now)], projectId, flowId)
         == CountFlowsOf(rows, projectId, flowId) + (if flow.projectId == projectId && flow.flowId == flowId then 1 else 0)
  {
    assert (rows + [InsertedFlowRow(id, flow, now)])[..|rows|] == rows;
  }

  /** Uploading a node adds one to the count of its project and job and
      leaves every other count alone. */
  lemma UploadNodeCount(rows: seq<JobRow>, node: ExecutableNode, inputProps: Option<Props>, projectId: int, jobId: string)
    ensures CountJobsOf(rows + [NodeRow(node, inputProps)], projectId, jobId)
         == CountJobsOf(rows, projectId, jobId) + (if node.projectId == projectId && node.jobId == jobId then 1 else 0)
  {
    assert (rows + [NodeRow(node, inputProps)])[..|rows|] == rows;
  }

  /** Updating a node's end state changes no count of job rows. */
  lemma {:induction false} UpdateNodeKeepsCount(rows: seq<JobRow>, node: ExecutableNode, projectId: int, jobId: string)
    ensures CountJobsOf(UpdateJobRows(rows, node), projectId, jobId) == CountJobsOf(rows, projectId, jobId)
    decreases |rows|
  {
    if |rows| > 0 {
      var init := rows[..|rows| - 1];
      UpdateNodeKeepsCount(init, node, projectId, jobId);
      assert UpdateJobRows(rows, node)[..|rows| - 1] == UpdateJobRows(init, node);
    }
  }

  // =====================================================================
  // The writer's read schedule

  /** How many bytes one `read(buffer, pos, length)` of a file returns when
      `cursor` bytes of it are consumed: -1 at end of file, otherwise the
      schedule's wish `want` brought into 1..min(length, bytes left). Every
      amount a stream may return is some wish. */
  function ReadSize(file: seq<byte>, cursor: nat, length: nat, want: int): (size: int)
    requires cursor <= |file| && length > 0
    ensures size == -1 <==> cursor == |file|
    ensures size != -1 ==> 1 <= size <= length && cursor + size <= |file|
  {
    var left := |file| - cursor;
    if left == 0 then -1
    else
      var most := if length < left then length else left;
      if want < 1 then 1 else if want > most then most else want
  }

  /** What the writer has done so far, in terms of the bytes `consumed` from
      the stream: every full window is stored, the k-th of them stamped with
      the k-th clock reading, and the rest sits at the front of the buffer. */
  ghost predicate WriterState(consumed: seq<byte>, buffered: seq<byte>, startByte: int,
                              logs0: seq<LogRow>, logs: seq<LogRow>, tag: LogTag, clock: nat -> int)
  {
    && 0 <= startByte && startByte % ChunkSize == 0
    && |consumed| == startByte + |buffered|
    && |buffered| < ChunkSize
    && buffered == consumed[startByte..]
    && logs == logs0 + Stamp(ChunkRows(tag, Split(consumed[..startByte], 0)), clock)
  }

  /** Flushing a full window, stamped with the next clock reading, keeps the
      writer's state. */
  lemma FlushStep(consumed: seq<byte>, window: seq<byte>, startByte: int,
                  logs0: seq<LogRow>, logs: seq<LogRow>, tag: LogTag, clock: nat -> int)
    requires 0 <= startByte && startByte % ChunkSize == 0
    requires |consumed| == startByte + ChunkSize && |window| == ChunkSize
    requires window == consumed[startByte..]
    requires logs == logs0 + Stamp(ChunkRows(tag, Split(consumed[..startByte], 0)), clock)
    ensures |logs| >= |logs0|
    ensures WriterState(consumed, [], startByte + ChunkSize, logs0,
                        logs + [ChunkRow(tag, Chunk(startByte, window)).(uploadTime := clock(|logs| - |logs0|))], tag, clock)
  {
    var done := consumed[..startByte];
    var row := ChunkRow(tag, Chunk(startByte, window));
    assert done + window == consumed;
    SplitAppend(done, window, 0);
    ChunkRowsAppend(tag, Split(done, 0), [Chunk(startByte, window)]);
    assert ChunkRows(tag, [Chunk(startByte, window)]) == [row];
    StampSnoc(ChunkRows(tag, Split(done, 0)), row, clock);
    assert consumed[..startByte + ChunkSize] == consumed;
  }

  /** The final short window, stamped with the next clock reading, completes
      the rows of the whole stream. */
  lemma FinalStep(consumed: seq<byte>, buffered: seq<byte>, startByte: int,
                  logs0: seq<LogRow>, logs: seq<LogRow>, tag: LogTag, clock: nat -> int)
    requires WriterState(consumed, buffered, startByte, logs0, logs, tag, clock)
    ensures |logs| >= |logs0|
    ensures |buffered| > 0 ==>
      logs + [ChunkRow(tag, Chunk(startByte, buffered)).(uploadTime := clock(|logs| - |logs0|))]
        == logs0 + Stamp(ChunkRows(tag, Split(consumed, 0)), clock)
    ensures |buffered| == 0 ==> logs == logs0 + Stamp(ChunkRows(tag, Split(consumed, 0)), clock)
  {
    var done := consumed[..startByte];
    assert done + buffered == consumed;
    if |buffered| > 0 {
      var row := ChunkRow(tag, Chunk(startByte, buffered));
      SplitAppend(done, buffered, 0);
      ChunkRowsAppend(tag, Split(done, 0), [Chunk(startByte, buffered)]);
      assert ChunkRows(tag, [Chunk(startByte, buffered)]) == [row];
      StampSnoc(ChunkRows(tag, Split(done, 0)), row, clock);
    } else {
      assert done == consumed;
    }
  }

  lemma ReadStep(done: seq<byte>, file: seq<byte>, cursor: int, size: int)
    requires 0 <= size <= cursor <= |file|
    ensures (done + file[..cursor - size]) + file[cursor - size..cursor] == done + file[..cursor]
    ensures cursor == |file| ==> done + file[..cursor] == done + file
  {
    assert file[..cursor - size] + file[cursor - size..cursor] == file[..cursor];
  }

  lemma FlattenStep(files: seq<seq<byte>>, i: int)
    requires 0 <= i < |files|
    ensures Flatten(files[..i + 1]) == Flatten(files[..i]) + files[i]
  {
    assert files[..i + 1][..i] == files[..i];
  }

  // =====================================================================
  // The loader

  class JdbcExecutorLoader {
    var flows: seq<FlowRow>
    var activeRefs: seq<ExecutionReference>
    var jobs: seq<JobRow>
    var logs: seq<LogRow>
    /** The auto-increment counter of `execution_flows.exec_id`. */
    var nextExecId: int
    var defaultEncodingType: EncodingType

    /** Ids are unique and below the counter, so the next insert's id is
      fresh. */
    ghost predicate Valid()
      reads this
    {
      && (forall i :: 0 <= i < |flows| ==> flows[i].execId < nextExecId)
      && (forall i, j :: 0 <= i < j < |flows| ==> flows[i].execId != flows[j].execId)
    }

    /** An empty store; the default encoding is GZIP. */
    constructor ()
      ensures Valid()
      ensures flows == [] && activeRefs == [] && jobs == [] && logs == []
      ensures defaultEncodingType == Gzip
    {
      flows, activeRefs, jobs, logs := [], [], [], [];
      nextExecId := 1;
      defaultEncodingType := Gzip;
    }

    method SetDefaultEncodingType(enc: EncodingType)
      requires Valid()
      modifies this
      ensures Valid()
      ensures defaultEncodingType == enc
      ensures flows == old(flows) && activeRefs == old(activeRefs) && jobs == old(jobs)
      ensures logs == old(logs) && nextExecId == old(nextExecId)
    {
      defaultEncodingType := enc;
    }

    // -------------------------------------------------------------------
    // Flows

    /** `INSERT_EXECUTABLE_FLOW`: one new row, PREPARING, with equal submit
      and update times, under the next auto-increment id. */
    method InsertExecutableFlow(flow: Flow, now: int)
      requires Valid()
      modifies this
      ensures Valid()
      ensures flows == old(flows) + [InsertedFlowRow(old(nextExecId), flow, now)]
      ensures nextExecId == old(nextExecId) + 1
      ensures activeRefs == old(activeRefs) && jobs == old(jobs) && logs == old(logs)
      ensures defaultEncodingType == old(defaultEncodingType)
    {
      flows := flows + [InsertedFlowRow(nextExecId, flow, now)];
      nextExecId := nextExecId + 1;
    }

    /** `LAST_INSERT_ID()` with the `LastInsertID` handler: the query yields
      one row holding the id of the last insert, read as a long; an empty
      result reads as -1. */
    method LastInsertId() returns (id: int)
      ensures |flows| == 0 ==> id == -1
      ensures |flows| > 0 ==> id == flows[|flows| - 1].execId
    {
      var rs := if |flows| == 0 then [] else [flows[|flows| - 1].execId];
      if |rs| == 0 {
        id := -1;
      } else {
        id := rs[0];
      }
    }

    /** `updateExecutableFlow`: serialise the flow, compress it under `enc`,
      and rewrite status, times, tag and payload of the rows of its id. */
    method UpdateExecutableFlow(flow: Flow, enc: EncodingType)
      requires Valid()
      modifies this
      ensures Valid()
      ensures flows == UpdateFlowRows(old(flows), flow, enc)
      ensures activeRefs == old(activeRefs) && jobs == old(jobs) && logs == old(logs)
      ensures nextExecId == old(nextExecId) && defaultEncodingType == old(defaultEncodingType)
    {
      flows := UpdateFlowRows(flows, flow, enc);
    }

    /** `uploadExecutableFlow`: mark the flow PREPARING, insert its row, read
      the assigned id back, fail if it is -1, otherwise give the flow the id
      (cast to a Java int) and write its payload over the new row. The row
      stays inserted when the id check fails. When the id fits a Java int,
      fetching it afterwards gives back exactly the uploaded flow. */
    method UploadExecutableFlow(flow: Flow, now: int) returns (r: Result<Flow>)
      requires Valid()
      modifies this
      ensures Valid()
      ensures var inserted := old(flows) + [InsertedFlowRow(old(nextExecId), flow, now)];
        && (r.Failure? <==> old(nextExecId) == -1)
        && (r.Failure? ==> r.error == IdNotCreated && flows == inserted)
        && (r.Success? ==> r.value == flow.(status := Preparing, execId := Int32(old(nextExecId)))
                           && flows == UpdateFlowRows(inserted, r.value, defaultEncodingType))
      ensures r.Success? && IsInt32(old(nextExecId)) ==>
        DecodeFlowList(FlowRowsOf(FlowDataRows(flows), r.value.execId)) == Success([r.value])
      ensures nextExecId == old(nextExecId) + 1
      ensures activeRefs == old(activeRefs) && jobs == old(jobs) && logs == old(logs)
      ensures defaultEncodingType == old(defaultEncodingType)
    {
      ghost var flows0, id0 := flows, nextExecId;
      var prepared := flow.(status := Preparing);
      InsertExecutableFlow(prepared, now);
      var id := LastInsertId();
      if id == -1 {
        return Failure(IdNotCreated);
      }
      var withId := prepared.(execId := Int32(id));
      UpdateExecutableFlow(withId, defaultEncodingType);
      r := Success(withId);
      if IsInt32(id0) {
        UploadThenFetch(flows0, flow, now, id0, defaultEncodingType);
      }
    }

    /** `fetchExecutableFlow`: the flows decoded from the rows of the id, and
      the first of them; an empty list fails like `get(0)` does. */
    method FetchExecutableFlow(id: int) returns (r: Result<Flow>)
      ensures var sel := FlowRowsOf(FlowDataRows(flows), id);
        match DecodeFlowList(sel)
        case Failure(e) => r == Failure(e)
        case Success(fs) => r == if |fs| == 0 then Failure(IndexOutOfBounds) else Success(fs[0])
    {
      var list := FetchExecutableFlows(FlowRowsOf(FlowDataRows(flows), id));
      match list
      case Failure(e) => r := Failure(e);
      case Success(fs) =>
        if |fs| == 0 {
          r := Failure(IndexOutOfBounds);
        } else {
          r := Success(fs[0]);
        }
    }

    /** The result-set loop of `FetchExecutableFlows.handle`. */
    static method FetchExecutableFlows(rs: seq<FlowDataRow>) returns (r: Result<seq<Flow>>)
      ensures r == DecodeFlowList(rs)
    {
      var execFlows: seq<Flow> := [];
      var i := 0;
      while i < |rs|
        invariant 0 <= i <= |rs|
        invariant DecodeFlowList(rs[..i]) == Success(execFlows)
      {
        assert rs[..i + 1][..i] == rs[..i];
        var row := rs[i];
        if row.flowData.Some? {
          var flowObj := DecodeFlowData(row.encType, row.flowData.value);
          if flowObj.None? {
            DecodeFlowListFailure(rs, i + 1);
            return Failure(DecodeError);
          }
          execFlows := execFlows + [flowObj.value];
        }
        i := i + 1;
      }
      assert rs[..i] == rs;
      r := Success(execFlows);
    }

    /** `fetchActiveFlows`: the inner join of flows and references on the id,
      decoded by `FetchActiveExecutableFlows.handle`. */
    method FetchActiveFlows() returns (r: Result<map<int, Option<(ExecutionReference, Flow)>>>)
      ensures r == DecodeActiveMap(ActiveJoin(flows, activeRefs))
    {
      var rs := ActiveJoin(flows, activeRefs);
      r := FetchActiveExecutableFlows(rs);
    }

    /** The result-set loop of `FetchActiveExecutableFlows.handle`. */
    static method FetchActiveExecutableFlows(rs: seq<ActiveRow>) returns (r: Result<map<int, Option<(ExecutionReference, Flow)>>>)
      ensures r == DecodeActiveMap(rs)
      ensures r.Success? <==> PayloadsDecode(rs)
      ensures r.Success? ==> forall id :: id in r.value <==> exists i :: 0 <= i < |rs| && rs[i].execId == id
      ensures r.Success? ==> forall j :: 0 <= j < |rs| && LastOfId(rs, j) ==> EntryOf(r.value, rs[j])
    {
      DecodeActiveMapSuccess(rs);
      DecodeActiveMapKeys(rs);
      forall j | 0 <= j < |rs| && LastOfId(rs, j)
        ensures DecodeActiveMap(rs).Success? ==> EntryOf(DecodeActiveMap(rs).value, rs[j])
      {
        DecodeActiveMapEntry(rs, j);
      }
      var execFlows: map<int, Option<(ExecutionReference, Flow)>> := map[];
      var i := 0;
      while i < |rs|
        invariant 0 <= i <= |rs|
        invariant DecodeActiveMap(rs[..i]) == Success(execFlows)
      {
        assert rs[..i + 1][..i] == rs[..i];
        var row := rs[i];
        if row.flowData.None? {
          execFlows := execFlows[row.execId := None];
        } else {
          var flowObj := DecodeFlowData(row.encType, row.flowData.value);
          if flowObj.None? {
            DecodeActiveMapFailure(rs, i + 1);
            return Failure(DecodeError);
          }
          var ref := ExecutionReference(row.execId, row.host, row.port, row.updateTime);
          execFlows := execFlows[row.execId := Some((ref, flowObj.value))];
        }
        i := i + 1;
      }
      assert rs[..i] == rs;
      r := Success(execFlows);
    }

    /** `fetchNumExecutableFlows()`. */
    method FetchNumExecutableFlows() returns (n: int)
      ensures n == |flows|
    {
      n := IntHandler([|flows|]);
    }

    /** `fetchNumExecutableFlows(projectId, flowId)`. */
    method FetchNumFlowExecutions(projectId: int, flowId: string) returns (n: int)
      ensures n == CountFlowsOf(flows, projectId, flowId)
    {
      n := IntHandler([CountFlowsOf(flows, projectId, flowId)]);
    }

    /** `fetchNumExecutableNodes(projectId, jobId)`. */
    method FetchNumExecutableNodes(projectId: int, jobId: string) returns (n: int)
      ensures n == CountJobsOf(jobs, projectId, jobId)
    {
      n := IntHandler([CountJobsOf(jobs, projectId, jobId)]);
    }

    // -------------------------------------------------------------------
    // Active references

    /** `addActiveExecutableReference`: one row more. */
    method AddActiveExecutableReference(ref: ExecutionReference)
      requires Valid()
      modifies this
      ensures Valid()
      ensures activeRefs == old(activeRefs) + [ref]
      ensures flows == old(flows) && jobs == old(jobs) && logs == old(logs)
      ensures nextExecId == old(nextExecId) && defaultEncodingType == old(defaultEncodingType)
    {
      activeRefs := activeRefs + [ref];
    }

    /** `removeActiveExecutableReference`: every row of the id goes. */
    method RemoveActiveExecutableReference(execId: int)
      requires Valid()
      modifies this
      ensures Valid()
      ensures activeRefs == WithoutReference(old(activeRefs), execId)
      ensures !HasReference(activeRefs, execId)
      ensures flows == old(flows) && jobs == old(jobs) && logs == old(logs)
      ensures nextExecId == old(nextExecId) && defaultEncodingType == old(defaultEncodingType)
    {
      activeRefs := WithoutReference(activeRefs, execId);
    }

    /** `updateExecutableReference`: the heartbeat. True exactly when a row of
      the id existed; only the update times of those rows change. */
    method UpdateExecutableReference(execId: int, updateTime: int) returns (updated: bool)
      requires Valid()
      modifies this
      ensures Valid()
      ensures updated <==> HasReference(old(activeRefs), execId)
      ensures activeRefs == TouchReference(old(activeRefs), execId, updateTime)
      ensures flows == old(flows) && jobs == old(jobs) && logs == old(logs)
      ensures nextExecId == old(nextExecId) && defaultEncodingType == old(defaultEncodingType)
    {
      var updateNum := CountReferences(activeRefs, execId);
      activeRefs := TouchReference(activeRefs, execId, updateTime);
      updated := updateNum > 0;
    }

    // -------------------------------------------------------------------
    // Job nodes

    /** `uploadExecutableNode`: one row more, its input properties stored
      compressed when given. */
    method UploadExecutableNode(node: ExecutableNode, inputProps: Option<Props>)
      requires Valid()
      modifies this
      ensures Valid()
      ensures jobs == old(jobs) + [NodeRow(node, inputProps)]
      ensures flows == old(flows) && activeRefs == old(activeRefs) && logs == old(logs)
      ensures nextExecId == old(nextExecId) && defaultEncodingType == old(defaultEncodingType)
    {
      jobs := jobs + [NodeRow(node, inputProps)];
    }

    /** `updateExecutableNode`: the rows of the node's key take its end state. */
    method UpdateExecutableNode(node: ExecutableNode)
      requires Valid()
      modifies this
      ensures Valid()
      ensures jobs == UpdateJobRows(old(jobs), node)
      ensures flows == old(flows) && activeRefs == old(activeRefs) && logs == old(logs)
      ensures nextExecId == old(nextExecId) && defaultEncodingType == old(defaultEncodingType)
    {
      jobs := UpdateJobRows(jobs, node);
    }

    // -------------------------------------------------------------------
    // Logs

    /** `uploadLogPart`: one row for the first `length` bytes of the buffer,
      starting at `startByte`, compressed under `enc`, stamped with the clock
      reading `now` taken for this part. Its stored end is
      `startByte + length`; the `endByte` argument is not used. */
    method UploadLogPart(tag: LogTag, startByte: int, endByte: int, buffer: array<byte>, length: int, now: int)
      requires 0 <= length <= buffer.Length
      modifies this
      ensures logs == old(logs) + [ChunkRow(tag, Chunk(startByte, buffer[..length])).(uploadTime := now)]
      ensures flows == old(flows) && activeRefs == old(activeRefs) && jobs == old(jobs)
      ensures nextExecId == old(nextExecId) && defaultEncodingType == old(defaultEncodingType)
    {
      var buf := buffer[..length];
      var stored := EncodeBlob(tag.enc, buf);
      logs := logs + [LogRow(tag.execId, tag.name, tag.attempt, NumVal(tag.enc), startByte,
                             startByte + length, stored, now, tag.rerunTime)];
    }

    /** `uploadLogFile`: the files are read through one 50 KiB buffer whose
      position and free length carry over from file to file; a full buffer
      is written as one row, and a partly filled buffer is written once all
      files are read. Whatever amounts the reads return (`schedule` gives the
      wish of each read in turn), the rows are those of cutting the
      concatenated files into windows of `ChunkSize` bytes; each part is
      stamped with its own clock reading (`clock` gives the k-th). */
    method UploadLogFile(execId: int, name: string, attempt: int, currentRerunTime: int,
                         files: seq<seq<byte>>, clock: nat -> int, schedule: nat -> int)
      requires Valid()
      modifies this
      ensures Valid()
      ensures logs == old(logs) + Stamp(ChunkRows(LogTag(execId, name, attempt, defaultEncodingType, currentRerunTime),
                                                  Split(Flatten(files), 0)), clock)
      ensures flows == old(flows) && activeRefs == old(activeRefs) && jobs == old(jobs)
      ensures nextExecId == old(nextExecId) && defaultEncodingType == old(defaultEncodingType)
    {
      var tag := LogTag(execId, name, attempt, defaultEncodingType, currentRerunTime);
      var logs0 := logs;
      var buffer := new byte[ChunkSize];
      var pos, length, startByte := 0, buffer.Length, 0;
      var readCount: nat := 0;
      ghost var done: seq<byte> := [];
      var i := 0;
      while i < |files|
        invariant 0 <= i <= |files|
        invariant done == Flatten(files[..i])
        invariant 0 <= pos < ChunkSize && length == ChunkSize - pos
        invariant WriterState(done, buffer[..pos], startByte, logs0, logs, tag, clock)
        invariant flows == old(flows) && activeRefs == old(activeRefs) && jobs == old(jobs)
        invariant nextExecId == old(nextExecId) && defaultEncodingType == old(defaultEncodingType)
      {
        pos, length, startByte, readCount := WriteFile(tag, buffer, pos, length, startByte, files[i],
                                                       schedule, readCount, done, logs0, clock);
        FlattenStep(files, i);
        done := done + files[i];
        i := i + 1;
      }
      assert files[..i] == files;
      FinalStep(done, buffer[..pos], startByte, logs0, logs, tag, clock);
      if pos > 0 {
        UploadLogPart(tag, startByte, startByte + pos, buffer, pos, clock(|logs| - |logs0|));
      }
    }

    /** The read loop of `uploadLogFile` over one file: read into the free
      part of the buffer until end of file, absorbing every read. The
      writer's state moves from the bytes `done` before the file to
      `done + file`. */
    method WriteFile(tag: LogTag, buffer: array<byte>, pos: int, length: int, startByte: int, file: seq<byte>,
                     schedule: nat -> int, readCount: nat, ghost done: seq<byte>, logs0: seq<LogRow>, clock: nat -> int)
      returns (pos': int, length': int, startByte': int, readCount': nat)
      requires buffer.Length == ChunkSize
      requires 0 <= pos < ChunkSize && length == ChunkSize - pos
      requires WriterState(done, buffer[..pos], startByte, logs0, logs, tag, clock)
      modifies this, buffer
      ensures 0 <= pos' < ChunkSize && length' == ChunkSize - pos'
      ensures WriterState(done + file, buffer[..pos'], startByte', logs0, logs, tag, clock)
      ensures flows == old(flows) && activeRefs == old(activeRefs) && jobs == old(jobs)
      ensures nextExecId == old(nextExecId) && defaultEncodingType == old(defaultEncodingType)
    {
      pos', length', startByte', readCount' := pos, length, startByte, readCount;
      var cursor := 0;
      var size;
      size, cursor := ReadInto(buffer, pos', length', file, cursor, schedule(readCount'));
      readCount' := readCount' + 1;
      ghost var before := done;
      assert file[..0] == [];
      while size >= 0
        invariant 0 <= cursor <= |file|
        invariant size < 0 ==> cursor == |file| && before == done + file
        invariant 0 <= pos' < ChunkSize && length' == ChunkSize - pos'
        invariant size >= 0 ==> 1 <= size <= length' && size <= cursor
                                && before == done + file[..cursor - size]
                                && buffer[pos'..pos' + size] == file[cursor - size..cursor]
        invariant WriterState(before, buffer[..pos'], startByte', logs0, logs, tag, clock)
        invariant flows == old(flows) && activeRefs == old(activeRefs) && jobs == old(jobs)
        invariant nextExecId == old(nextExecId) && defaultEncodingType == old(defaultEncodingType)
        decreases |file| - cursor + (if size >= 0 then 1 else 0)
      {
        pos', length', startByte' := Absorb(tag, buffer, pos', size, startByte', before, file[cursor - size..cursor], logs0, clock);
        ReadStep(done, file, cursor, size);
        before := done + file[..cursor];
        size, cursor := ReadInto(buffer, pos', length', file, cursor, schedule(readCount'));
        readCount' := readCount' + 1;
      }
    }

    /** One read of `size` bytes into the buffer at `pos`: a buffer that is
      now full is written out as one row and starts over; otherwise the
      position moves on and the free length shrinks. */
    method Absorb(tag: LogTag, buffer: array<byte>, pos: int, size: int, startByte: int,
                  ghost before: seq<byte>, ghost part: seq<byte>, logs0: seq<LogRow>, clock: nat -> int)
      returns (pos': int, length': int, startByte': int)
      requires buffer.Length == ChunkSize
      requires 0 <= pos && 1 <= size && pos + size <= ChunkSize
      requires buffer[pos..pos + size] == part
      requires WriterState(before, buffer[..pos], startByte, logs0, logs, tag, clock)
      modifies this
      ensures 0 <= pos' < ChunkSize && length' == ChunkSize - pos'
      ensures WriterState(before + part, buffer[..pos'], startByte', logs0, logs, tag, clock)
      ensures flows == old(flows) && activeRefs == old(activeRefs) && jobs == old(jobs)
      ensures nextExecId == old(nextExecId) && defaultEncodingType == old(defaultEncodingType)
    {
      ghost var after := before + part;
      assert after[..startByte] == before[..startByte];
      assert buffer[..pos + size] == buffer[..pos] + buffer[pos..pos + size];
      if pos + size == buffer.Length {
        assert buffer[..pos + size] == buffer[..ChunkSize];
        assert after[startByte..] == buffer[..ChunkSize];
        FlushStep(after, buffer[..ChunkSize], startByte, logs0, logs, tag, clock);
        UploadLogPart(tag, startByte, startByte + buffer.Length, buffer, buffer.Length, clock(|logs| - |logs0|));
        pos' := 0;
        length' := buffer.Length;
        startByte' := startByte + buffer.Length;
        assert buffer[..pos'] == [];
      } else {
        pos' := pos + size;
        length' := buffer.Length - pos';
        startByte' := startByte;
        assert after[startByte..] == buffer[..pos'];
      }
    }

    /** `fetchLogs`: the highest generation of the key, then the handler over
      the rows of that generation that meet the window, in `start_byte`
      order. */
    method FetchLogs(execId: int, name: string, attempt: int, startByte: int, length: int,
                     utf8Range: seq<byte> -> (int, int))
      returns (r: Result<Option<LogData>>)
      ensures r == FetchLogsResult(logs, execId, name, attempt, startByte, length, utf8Range)
    {
      var maxRerunTime := JobMaxRerunHandler(AggregateResult(MaxJobRerun(logs, execId, name, attempt)));
      var rerun := if maxRerunTime.Success? then maxRerunTime.value else 0;
      var rows := FetchLogsRows(logs, execId, name, attempt, rerun, startByte, length);
      r := HandleLogs(rows, startByte, startByte + length, utf8Range);
    }

    /** `fetchExecutionMaxRerunTime`: the highest generation logged for the
      execution, 0 when none is. */
    method FetchExecutionMaxRerunTime(execId: int) returns (g: int)
      ensures forall i :: 0 <= i < |logs| && logs[i].execId == execId ==> logs[i].rerunTime <= g
      ensures (exists i :: 0 <= i < |logs| && logs[i].execId == execId && logs[i].rerunTime == g)
           || (g == 0 && forall i :: 0 <= i < |logs| ==> logs[i].execId != execId)
    {
      g := ExecutionMaxRerunHandler(AggregateResult(MaxExecutionRerun(logs, execId)));
    }

    /** `FetchLogsHandler.handle`: null for an empty result set; otherwise
      the slices of the rows appended in order to one byte stream, which is
      then trimmed to the range `utf8Range` reports. The offset reported is
      the requested start plus the trim offset. */
    static method HandleLogs(rows: seq<LogRow>, startByte: int, endByte: int, utf8Range: seq<byte> -> (int, int))
      returns (r: Result<Option<LogData>>)
      ensures r == HandleLogsResult(rows, startByte, endByte, utf8Range)
    {
      if |rows| == 0 {
        return Success(None);
      }
      var byteStream: seq<byte> := [];
      var i := 0;
      while i < |rows|
        invariant 0 <= i <= |rows|
        invariant Assemble(rows[..i], startByte, endByte) == Success(byteStream)
      {
        AssembleSnoc(rows, i, byteStream, startByte, endByte);
        var part := SliceRow(rows[i], startByte, endByte);
        if part.Failure? {
          AssemblePrefixFailure(rows, i + 1, startByte, endByte);
          return Failure(part.error);
        }
        byteStream := byteStream + part.value;
        i := i + 1;
      }
      assert rows[..i] == rows;
      var range := utf8Range(byteStream);
      if 0 <= range.0 && 0 <= range.1 && range.0 + range.1 <= |byteStream| {
        r := Success(Some(LogData(startByte + range.0, range.1, byteStream[range.0..range.0 + range.1])));
      } else {
        r := Failure(IndexOutOfBounds);
      }
    }

    /** The per-row step of the handler: inflate when the row is compressed,
        then take the bytes of the row that fall in the window. */
    static method SliceRow(row: LogRow, startByte: int, endByte: int) returns (r: Result<seq<byte>>)
      ensures r == SliceOf(row, startByte, endByte)
    {
      var offset := if startByte > row.startByte then startByte - row.startByte else 0;
      var length := if endByte < row.endByte then endByte - row.startByte - offset
                    else row.endByte - row.startByte - offset;
      var buffer := row.log;
      if FromInteger(row.encType) == Gzip {
        var inflated := UnGzipBytes(row.log);
        if inflated.None? {
          return Failure(DecodeError);
        }
        buffer := inflated.value;
      }
      if offset < 0 || length < 0 || offset + length > |buffer| {
        return Failure(IndexOutOfBounds);
      }
      r := Success(buffer[offset..offset + length]);
    }

    /** `removeExecutionLogsByTime`: the rows uploaded before `millis` go,
      and their number is returned. */
    method RemoveExecutionLogsByTime(millis: int) returns (updateNum: int)
      requires Valid()
      modifies this
      ensures Valid()
      ensures logs == KeepUploadedSince(old(logs), millis)
      ensures updateNum == CountUploadedBefore(old(logs), millis)
      ensures flows == old(flows) && activeRefs == old(activeRefs) && jobs == old(jobs)
      ensures nextExecId == old(nextExecId) && defaultEncodingType == old(defaultEncodingType)
    {
      RetentionCount(logs, millis);
      updateNum := |logs| - |KeepUploadedSince(logs, millis)|;
      logs := KeepUploadedSince(logs, millis);
    }
  }

  // =====================================================================
  // Helpers of the loader's methods

  /** `read(buffer, off, len)` of a file stream positioned at `cursor`: fills
      the buffer from `off` with the bytes it returns and leaves the rest of
      the buffer alone. */
  method ReadInto(buffer: array<byte>, off: int, len: int, file: seq<byte>, cursor: int, want: int)
    returns (size: int, cursor': int)
    requires 0 <= off && 0 < len && off + len <= buffer.Length && 0 <= cursor <= |file|
    modifies buffer
    ensures size == ReadSize(file, cursor, len, want)
    ensures size == -1 ==> cursor' == cursor
    ensures size != -1 ==> cursor' == cursor + size && buffer[off..off + size] == file[cursor..cursor']
    ensures buffer[..off] == old(buffer[..off])
  {
    size := ReadSize(file, cursor, len, want);
    cursor' := cursor;
    if size != -1 {
      forall k | 0 <= k < size {
        buffer[off + k] := file[cursor + k];
      }
      cursor' := cursor + size;
    }
  }

  /** The rows of `execution_flows` whose id is `id`, as the flow queries
      select them. */
  function FlowRowsOf(rows: seq<FlowDataRow>, id: int): (sel: seq<FlowDataRow>)
    ensures forall r :: r in sel <==> r in rows && r.execId == id
    decreases |rows|
  {
    if |rows| == 0 then []
    else (if rows[0].execId == id then [rows[0]] else []) + FlowRowsOf(rows[1..], id)
  }

  /** The rows of the inner join of `execution_flows` and
      `active_executing_flows` on `exec_id`, flows outermost. */
  function ActiveJoin(flows: seq<FlowRow>, refs: seq<ExecutionReference>): seq<ActiveRow>
    decreases |flows|
  {
    if |flows| == 0 then []
    else JoinOne(flows[0], refs) + ActiveJoin(flows[1..], refs)
  }

  function JoinOne(f: FlowRow, refs: seq<ExecutionReference>): seq<ActiveRow>
    decreases |refs|
  {
    if |refs| == 0 then []
    else (if refs[0].execId == f.execId then [JoinedRow(f, refs[0])] else [])
         + JoinOne(f, refs[1..])
  }

  /** One row of the join: the flow's payload columns and the reference's
      executor columns. */
  function JoinedRow(f: FlowRow, ref: ExecutionReference): ActiveRow {
    ActiveRow(f.execId, f.encType, f.flowData, ref.host, ref.port, ref.updateTime)
  }

  /** Every row of the join pairs a flow row with a reference of its id. */
  lemma {:induction false} JoinedFrom(flows: seq<FlowRow>, refs: seq<ExecutionReference>, j: int) returns (i: nat, k: nat)
    requires 0 <= j < |ActiveJoin(flows, refs)|
    ensures i < |flows| && k < |refs| && flows[i].execId == refs[k].execId
    ensures ActiveJoin(flows, refs)[j] == JoinedRow(flows[i], refs[k])
    decreases |flows|
  {
    var head := JoinOne(flows[0], refs);
    assert ActiveJoin(flows, refs) == head + ActiveJoin(flows[1..], refs);
    if j < |head| {
      i := 0;
      k := JoinOneFrom(flows[0], refs, j);
    } else {
      var i', k' := JoinedFrom(flows[1..], refs, j - |head|);
      i, k := i' + 1, k';
    }
  }

  lemma {:induction false} JoinOneFrom(f: FlowRow, refs: seq<ExecutionReference>, j: int) returns (k: nat)
    requires 0 <= j < |JoinOne(f, refs)|
    ensures k < |refs| && refs[k].execId == f.execId && JoinOne(f, refs)[j] == JoinedRow(f, refs[k])
    decreases |refs|
  {
    var head := if refs[0].execId == f.execId then [JoinedRow(f, refs[0])] else [];
    if j < |head| {
      k := 0;
    } else {
      var k' := JoinOneFrom(f, refs[1..], j - |head|);
      k := k' + 1;
    }
  }

  /** Every flow row and reference of the same id meet in a row of the join. */
  lemma {:induction false} JoinedInto(flows: seq<FlowRow>, refs: seq<ExecutionReference>, i: int, k: int) returns (j: nat)
    requires 0 <= i < |flows| && 0 <= k < |refs| && flows[i].execId == refs[k].execId
    ensures j < |ActiveJoin(flows, refs)| && ActiveJoin(flows, refs)[j] == JoinedRow(flows[i], refs[k])
    decreases |flows|
  {
    var head := JoinOne(flows[0], refs);
    assert ActiveJoin(flows, refs) == head + ActiveJoin(flows[1..], refs);
    if i == 0 {
      j := JoinOneInto(flows[0], refs, k);
    } else {
      var j' := JoinedInto(flows[1..], refs, i - 1, k);
      j := j' + |head|;
    }
  }

  lemma {:induction false} JoinOneInto(f: FlowRow, refs: seq<ExecutionReference>, k: int) returns (j: nat)
    requires 0 <= k < |refs| && refs[k].execId == f.execId
    ensures j < |JoinOne(f, refs)| && JoinOne(f, refs)[j] == JoinedRow(f, refs[k])
    decreases |refs|
  {
    var head := if refs[0].execId == f.execId then [JoinedRow(f, refs[0])] else [];
    if k == 0 {
      j := 0;
    } else {
      var j' := JoinOneInto(f, refs[1..], k - 1);
      j := j' + |head|;
    }
  }

  /** The number of rows of `execId`: what the heartbeat UPDATE reports. */
  function CountReferences(refs: seq<ExecutionReference>, execId: int): (n: nat)
    ensures n > 0 <==> HasReference(refs, execId)
    decreases |refs|
  {
    if |refs| == 0 then 0
    else
      var n := (if refs[0].execId == execId then 1 else 0) + CountReferences(refs[1..], execId);
      assert forall i :: 1 <= i < |refs| ==> refs[i] == refs[1..][i - 1];
      n
  }

  lemma {:induction false} DecodeFlowListFailure(rs: seq<FlowDataRow>, i: int)
    requires 0 < i <= |rs|
    requires DecodeFlowList(rs[..i]).Failure?
    ensures DecodeFlowList(rs) == Failure(DecodeError)
    decreases |rs| - i
  {
    DecodeFlowListErrorKind(rs[..i]);
    if i < |rs| {
      assert rs[..i + 1][..i] == rs[..i];
      DecodeFlowListFailure(rs, i + 1);
    } else {
      assert rs[..i] == rs;
    }
  }

  lemma {:induction false} DecodeFlowListErrorKind(rs: seq<FlowDataRow>)
    ensures DecodeFlowList(rs).Failure? ==> DecodeFlowList(rs).error == DecodeError
    decreases |rs|
  {
    if |rs| > 0 {
      DecodeFlowListErrorKind(rs[..|rs| - 1]);
    }
  }

  lemma {:induction false} DecodeActiveMapFailure(rs: seq<ActiveRow>, i: int)
    requires 0 < i <= |rs|
    requires DecodeActiveMap(rs[..i]).Failure?
    ensures DecodeActiveMap(rs) == Failure(DecodeError)
    decreases |rs| - i
  {
    DecodeActiveMapErrorKind(rs[..i]);
    if i < |rs| {
      assert rs[..i + 1][..i] == rs[..i];
      DecodeActiveMapFailure(rs, i + 1);
    } else {
      assert rs[..i] == rs;
    }
  }

  lemma {:induction false} DecodeActiveMapErrorKind(rs: seq<ActiveRow>)
    ensures DecodeActiveMap(rs).Failure? ==> DecodeActiveMap(rs).error == DecodeError
    decreases |rs|
  {
    if |rs| > 0 {
      DecodeActiveMapErrorKind(rs[..|rs| - 1]);
    }
  }
}
