/** The bulk insert operation: which commas, prefixes and brackets each call writes. */
module BulkInsertState {
  import opened BulkInsertGrammar
  import opened Wrappers

  // `Step` is one call; a call that is refused may still have opened the list.

  datatype Progress = Idle | CountersRunning | TimeSeriesRunning

  /** A time-series object between its creation and its disposal. */
  datatype Series = Series(id: string, name: string, first: bool, inBatch: nat)

  datatype State = State(
    started: bool,
    first: bool,
    progress: Progress,
    countersId: Option<string>,
    countersFirst: bool,
    countersInBatch: nat,
    series: Option<Series>,
    out: seq<Token>)

  const INIT := State(false, true, Idle, None, true, 0, None, [])

  const MAX_COUNTERS_IN_BATCH := 1024

  datatype Call =
    | Store(id: string, json: string)
    | TryStoreSync(flushNeeded: bool, id: string, json: string)
    | Increment(id: string, name: string, delta: int)
    | StoreAttachment(id: string, name: string, contentType: string, bytes: seq<bv8>)
    | SendHeartBeat(intervalExceeded: bool, serverSupports: bool)
    | OpenSeries(id: string, name: string)
    | Append(timestamp: int, values: seq<int>, tag: string)
    | DisposeSeries

  /** Only a time-series object that has not been disposed can be used. */
  predicate CanCall(s: State, call: Call) {
    call.Append? || call.DisposeSeries? ==> s.series.Some?
  }

  predicate ValidDocumentId(id: string) {
    id != "" && id[|id| - 1] != '|'
  }

  function LowerChar(c: char): char {
    if 'A' <= c <= 'Z' then (c as int + 32) as char else c
  }

  function Lower(s: string): (r: string)
    ensures |r| == |s|
  {
    seq(|s|, i requires 0 <= i < |s| => LowerChar(s[i]))
  }

  predicate EqualsIgnoreCase(a: string, b: string) {
    Lower(a) == Lower(b)
  }

  const INCREMENTAL_PREFIX := "INC:"

  predicate ValidSeriesName(name: string) {
    name != "" && !(Lower(INCREMENTAL_PREFIX) <= Lower(name) && '@' !in name)
  }

  // ---------------------------------------------------------------------------------
  // The calls

  function Write(s: State, ts: seq<Token>): State {
    s.(out := s.out + ts)
  }

  function EnsureStream(s: State): State {
    if s.started then s else Write(s, [OpenList]).(started := true)
  }

  function WriteComma(s: State): State {
    if s.first then s else Write(s, [Comma])
  }

  /** None when a time series is running, which is an error. */
  function EndPrevious(s: State): Option<State> {
    match s.progress
    case Idle => Some(s)
    case CountersRunning =>
      Some(if s.countersId.None? then s else Write(s, [CloseBatch]).(countersId := None))
    case TimeSeriesRunning => None
  }

  function WriteDocument(s: State, id: string, json: string): State {
    Write(WriteComma(s), [DocumentToken(id, json)]).(progress := Idle, first := false)
  }

  function StoreDocument(s: State, id: string, json: string): State {
    if !ValidDocumentId(id) then s
    else
      match EndPrevious(EnsureStream(s))
      case None => EnsureStream(s)
      case Some(s1) => WriteDocument(s1, id, json)
  }

  function TryStoreDocument(s: State, flushNeeded: bool, id: string, json: string): State {
    if flushNeeded || s.first || !ValidDocumentId(id) then s
    else
      match EndPrevious(s)
      case None => s
      case Some(s1) => WriteDocument(s1, id, json)
  }

  function CountersPrefix(s: State, id: string): State {
    Write(s, [HeaderToken(CountersHeader(id))]).(countersFirst := true, countersInBatch := 0)
  }

  /** The command for the counter's document is opened, unless it is the one already running. */
  function SwitchCounters(s: State, id: string): State {
    if s.countersId.Some? && EqualsIgnoreCase(s.countersId.value, id) then s
    else
      var s1 := if s.countersId.Some? then Write(s, [CloseBatch, Comma]) else WriteComma(s);
      CountersPrefix(s1.(first := false, countersId := Some(id), progress := CountersRunning), id)
  }

  function SplitCounters(s: State): State
    requires s.countersId.Some?
  {
    if s.countersInBatch >= MAX_COUNTERS_IN_BATCH then CountersPrefix(Write(s, [CloseBatch, Comma]), s.countersId.value)
    else s
  }

  function IncrementCounter(s: State, id: string, name: string, delta: int): State {
    if id == "" then s
    else
      var s0 := EnsureStream(s);
      if s0.progress.TimeSeriesRunning? then s0
      else
        var s1 := SplitCounters(SwitchCounters(s0, id));
        var s2 := s1.(countersInBatch := s1.countersInBatch + 1);
        Write(s2, (if s2.countersFirst then [] else [Comma])
            + [EntryToken(CounterDelta(name, delta))]).(countersFirst := false)
  }

  function WriteAttachment(s: State, id: string, name: string, contentType: string, bytes: seq<bv8>): State {
    if id == "" then s
    else
      match EndPrevious(s)
      case None => s
      case Some(s1) =>
        Write(WriteComma(EnsureStream(s1)), [AttachmentToken(id, name, contentType, |bytes|), BytesToken(bytes)])
  }

  function WriteHeartBeat(s: State, intervalExceeded: bool, serverSupports: bool): State {
    if !intervalExceeded then s
    else
      match EndPrevious(EnsureStream(s))
      case None => EnsureStream(s)
      case Some(s1) =>
        if !serverSupports then s1
        else Write(WriteComma(s1), [HeartBeatToken]).(first := false, progress := Idle)
  }

  function OpenTimeSeries(s: State, id: string, name: string): State {
    if id == "" || !ValidSeriesName(name) then s
    else
      match EndPrevious(s)
      case None => s
      case Some(s1) => s1.(series := Some(Series(id, name, true, 0)), progress := TimeSeriesRunning)
  }

  function SeriesPrefix(s: State): State
    requires s.series.Some?
  {
    var sr := s.series.value;
    Write(s, [HeaderToken(TimeSeriesHeader(sr.id, sr.name))]).(series := Some(sr.(first := true, inBatch := 0)))
  }

  function AppendPoint(s: State, batchSize: nat, point: Entry): State
    requires s.series.Some?
  {
    var s0 := EnsureStream(s);
    var s1 :=
      if s0.series.value.first then SeriesPrefix(WriteComma(s0))
      else if s0.series.value.inBatch >= batchSize then SeriesPrefix(Write(s0, [CloseBatch, Comma]))
      else s0;
    var sr := s1.series.value;
    Write(s1, (if sr.first then [] else [Comma]) + [EntryToken(point)])
      .(series := Some(sr.(first := false, inBatch := sr.inBatch + 1)))
  }

  function DisposeTimeSeries(s: State): State
    requires s.series.Some?
  {
    (if s.series.value.first then s else Write(s, [CloseBatch])).(progress := Idle, series := None)
  }

  function Step(s: State, batchSize: nat, call: Call): State
    requires CanCall(s, call)
  {
    match call
    case Store(id, json) => StoreDocument(s, id, json)
    case TryStoreSync(flushNeeded, id, json) => TryStoreDocument(s, flushNeeded, id, json)
    case Increment(id, name, delta) => IncrementCounter(s, id, name, delta)
    case StoreAttachment(id, name, contentType, bytes) => WriteAttachment(s, id, name, contentType, bytes)
    case SendHeartBeat(exceeded, supports) => WriteHeartBeat(s, exceeded, supports)
    case OpenSeries(id, name) => OpenTimeSeries(s, id, name)
    case Append(timestamp, values, tag) => AppendPoint(s, batchSize, TimeSeriesPoint(timestamp, values, tag))
    case DisposeSeries => DisposeTimeSeries(s)
  }

  /** Ending the operation: an error while a time series is running, nothing at all when no
      call ever opened the stream, and otherwise the whole stream. */
  datatype Finished = StillRunning | NothingSent | Sent(stream: seq<Token>)

  function Finish(s: State): Finished {
    match EndPrevious(s)
    case None => StillRunning
    case Some(s1) => if s1.started then Sent(s1.out + [CloseList]) else NothingSent
  }

  // ---------------------------------------------------------------------------------
  // What the caller asked for

  /** One thing the caller asked to be stored; a point also tells which time-series object it
      was appended to. */
  datatype Record =
    | DocumentRecord(id: string, json: string)
    | HeartBeatRecord
    | AttachmentRecord(id: string, name: string, contentType: string, bytes: seq<bv8>)
    | CounterRecord(id: string, name: string, delta: int)
    | PointRecord(session: nat, id: string, name: string, point: Entry)

  /** What a call adds, read off the call and the progress only. */
  function Records(s: State, session: nat, call: Call): seq<Record>
    requires CanCall(s, call)
  {
    var busy := s.progress.TimeSeriesRunning?;
    match call
    case Store(id, json) => if ValidDocumentId(id) && !busy then [DocumentRecord(id, json)] else []
    case TryStoreSync(flushNeeded, id, json) =>
      if !flushNeeded && !s.first && ValidDocumentId(id) && !busy then [DocumentRecord(id, json)] else []
    case Increment(id, name, delta) => if id != "" && !busy then [CounterRecord(id, name, delta)] else []
    case StoreAttachment(id, name, contentType, bytes) =>
      if id != "" && !busy then [AttachmentRecord(id, name, contentType, bytes)] else []
    case SendHeartBeat(exceeded, supports) => if exceeded && supports && !busy then [HeartBeatRecord] else []
    case OpenSeries(_, _) => []
    case Append(timestamp, values, tag) =>
      [PointRecord(session, s.series.value.id, s.series.value.name, TimeSeriesPoint(timestamp, values, tag))]
    case DisposeSeries => []
  }

  /** A run: the state, the number of time-series objects opened, and everything asked for so far. */
  datatype Trace = Trace(state: State, sessions: nat, records: seq<Record>)

  predicate Opens(s: State, call: Call) {
    call.OpenSeries? && call.id != "" && ValidSeriesName(call.name) && !s.progress.TimeSeriesRunning?
  }

  function Play(batchSize: nat, calls: seq<Call>): Option<Trace> {
    if calls == [] then Some(Trace(INIT, 0, []))
    else
      var call := calls[|calls| - 1];
      match Play(batchSize, calls[..|calls| - 1])
      case None => None
      case Some(t) =>
        if !CanCall(t.state, call) then None
        else Some(Next(t, batchSize, call))
  }

  function Next(t: Trace, batchSize: nat, call: Call): Trace
    requires CanCall(t.state, call)
  {
    Trace(Step(t.state, batchSize, call),
          if Opens(t.state, call) then t.sessions + 1 else t.sessions,
          t.records + Records(t.state, t.sessions, call))
  }
}
