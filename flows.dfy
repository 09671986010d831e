/** The values the loader persists: an execution ("flow") with the scalars
    that are also kept in columns, and a job's property bag. Each has a
    payload encoding and a decoding that undoes it. */
module Flows {
  import opened Common
  import opened Codec

  // ---------------------------------------------------------------------
  // Execution status and its numeric column value

  datatype Status =
    | Ready | Preparing | Running | Paused | Succeeded | Killed | Failed
    | FailedFinishing | Skipped | Disabled | Queued | FailedSucceeded | Cancelled

  function StatusNum(s: Status): int {
    match s
    case Ready => 10
    case Preparing => 20
    case Running => 30
    case Paused => 40
    case Succeeded => 50
    case Killed => 60
    case Failed => 70
    case FailedFinishing => 80
    case Skipped => 90
    case Disabled => 100
    case Queued => 110
    case FailedSucceeded => 120
    case Cancelled => 130
  }

  function StatusFromNum(n: int): (r: Option<Status>)
    ensures r.Some? ==> StatusNum(r.value) == n
  {
    if n == 10 then Some(Ready)
    else if n == 20 then Some(Preparing)
    else if n == 30 then Some(Running)
    else if n == 40 then Some(Paused)
    else if n == 50 then Some(Succeeded)
    else if n == 60 then Some(Killed)
    else if n == 70 then Some(Failed)
    else if n == 80 then Some(FailedFinishing)
    else if n == 90 then Some(Skipped)
    else if n == 100 then Some(Disabled)
    else if n == 110 then Some(Queued)
    else if n == 120 then Some(FailedSucceeded)
    else if n == 130 then Some(Cancelled)
    else None
  }

  lemma StatusRoundTrip(s: Status)
    ensures StatusFromNum(StatusNum(s)) == Some(s)
  {
  }

  /** Distinct statuses have distinct column values. */
  lemma StatusNumInjective(s: Status, t: Status)
    ensures StatusNum(s) == StatusNum(t) ==> s == t
  {
    StatusRoundTrip(s);
    StatusRoundTrip(t);
  }

  // ---------------------------------------------------------------------
  // An execution, as far as the loader reads or writes it

  datatype Flow = Flow(
    execId: int,
    projectId: int,
    flowId: string,
    version: int,
    status: Status,
    submitUser: string,
    submitTime: int,
    updateTime: int,
    startTime: int,
    endTime: int,
    customTimeFlag: Option<string>)

  function OptStrField(o: Option<string>): Field {
    match o
    case Some(s) => FStr(s)
    case None => FNull
  }

  /** `flow.toObject()`: the object graph that is written as JSON. */
  function FlowFields(f: Flow): seq<Field> {
    [FInt(f.execId), FInt(f.projectId), FStr(f.flowId), FInt(f.version),
     FInt(StatusNum(f.status)), FStr(f.submitUser), FInt(f.submitTime),
     FInt(f.updateTime), FInt(f.startTime), FInt(f.endTime),
     OptStrField(f.customTimeFlag)]
  }

  predicate FlowShaped(fs: seq<Field>) {
    && |fs| == 11
    && fs[0].FInt? && fs[1].FInt? && fs[2].FStr? && fs[3].FInt?
    && fs[4].FInt? && StatusFromNum(fs[4].i).Some?
    && fs[5].FStr? && fs[6].FInt? && fs[7].FInt? && fs[8].FInt? && fs[9].FInt?
    && !fs[10].FInt?
  }

  /** `ExecutableFlow.createExecutableFlowFromObject`: fails on an object of
      the wrong shape. */
  function FlowFromFields(fs: seq<Field>): (r: Option<Flow>)
    ensures r.Some? <==> FlowShaped(fs)
    ensures r.Some? ==> FlowFields(r.value) == fs
  {
    if FlowShaped(fs) then
      Some(Flow(fs[0].i, fs[1].i, fs[2].s, fs[3].i, StatusFromNum(fs[4].i).value,
                fs[5].s, fs[6].i, fs[7].i, fs[8].i, fs[9].i,
                if fs[10].FStr? then Some(fs[10].s) else None))
    else None
  }

  lemma FlowFieldsRoundTrip(f: Flow)
    ensures FlowFromFields(FlowFields(f)) == Some(f)
  {
    StatusRoundTrip(f.status);
  }

  /** The UTF-8 JSON text of a flow. */
  function FlowJson(f: Flow): seq<byte> {
    ToJson(FlowFields(f))
  }

  /** The `flow_data` bytes `updateExecutableFlow` stores under `enc`: the
      JSON text, compressed when `enc` is Gzip. */
  function EncodeFlowData(f: Flow, enc: EncodingType): (data: seq<byte>)
    ensures enc == Gzip ==> data == GzipBytes(FlowJson(f))
    ensures enc == Plain ==> data == FlowJson(f)
  {
    EncodeBlob(enc, FlowJson(f))
  }

  /** The readers' decoding of a `flow_data` blob: inflate exactly when the
      tag is GZIP's, then parse and rebuild the flow. */
  function DecodeFlowData(tag: int, data: seq<byte>): Option<Flow> {
    match DecodeBlob(tag, data)
    case None => None
    case Some(json) =>
      match ParseJson(json)
      case None => None
      case Some(fs) => FlowFromFields(fs)
  }

  /** decode(encode(flow)) == flow, for either encoding. */
  lemma FlowDataRoundTrip(f: Flow, enc: EncodingType)
    ensures DecodeFlowData(NumVal(enc), EncodeFlowData(f, enc)) == Some(f)
  {
    BlobRoundTrip(enc, FlowJson(f));
    JsonRoundTrip(FlowFields(f));
    FlowFieldsRoundTrip(f);
  }

  // ---------------------------------------------------------------------
  // Property bags of jobs

  datatype Props = Props(entries: seq<(string, string)>)

  function PropsFields(p: Props): (fs: seq<Field>)
    ensures |fs| == 2 * |p.entries|
    decreases |p.entries|
  {
    if |p.entries| == 0 then []
    else [FStr(p.entries[0].0), FStr(p.entries[0].1)] + PropsFields(Props(p.entries[1..]))
  }

  function PropsFromFields(fs: seq<Field>): Option<Props>
    decreases |fs|
  {
    if |fs| == 0 then Some(Props([]))
    else if |fs| >= 2 && fs[0].FStr? && fs[1].FStr? then
      match PropsFromFields(fs[2..])
      case None => None
      case Some(rest) => Some(Props([(fs[0].s, fs[1].s)] + rest.entries))
    else None
  }

  lemma {:induction false} PropsFieldsRoundTrip(p: Props)
    ensures PropsFromFields(PropsFields(p)) == Some(p)
    decreases |p.entries|
  {
    if |p.entries| > 0 {
      var tail := Props(p.entries[1..]);
      PropsFieldsRoundTrip(tail);
      assert PropsFields(p)[2..] == PropsFields(tail);
      assert [(p.entries[0].0, p.entries[0].1)] + tail.entries == p.entries;
    }
  }

  /** `GZIPUtils.gzipString(JSONUtils.toJSON(...), "UTF-8")`: property bags
      are always compressed, whatever the default encoding. */
  function EncodeProps(p: Props): seq<byte> {
    GzipBytes(ToJson(PropsFields(p)))
  }

  function DecodeProps(blob: seq<byte>): Option<Props> {
    match UnGzipBytes(blob)
    case None => None
    case Some(json) =>
      match ParseJson(json)
      case None => None
      case Some(fs) => PropsFromFields(fs)
  }

  lemma PropsRoundTrip(p: Props)
    ensures DecodeProps(EncodeProps(p)) == Some(p)
  {
    GzipRoundTrip(ToJson(PropsFields(p)));
    JsonRoundTrip(PropsFields(p));
    PropsFieldsRoundTrip(p);
  }
}
