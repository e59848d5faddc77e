/** How many entries go into one batch, which documents and time series are taken at all, and which
    calls are refused. */
module BulkInsertBatches {
  import opened BulkInsertGrammar
  import opened BulkInsertState
  import opened BulkInsertRoundTrip
  import opened Wrappers

  // ---------------------------------------------------------------------------------
  // Full batches

  /** The entries in batches of the size, all but the last of them full; the last is left open. */
  function Batched(header: Header, entries: seq<Entry>, size: nat): seq<Token>
    requires size > 0
    decreases |entries|
  {
    if |entries| <= size then Open(Batch(header, entries))
    else Tokens(Batch(header, entries[..size])) + [Comma] + Batched(header, entries[size..], size)
  }

  /** The entries of the batch that is still open. */
  function InLast(count: nat, size: nat): nat
    requires size > 0
  {
    if count <= size then count else InLast(count - size, size)
  }

  function More(header: Header, count: nat, size: nat, e: Entry): seq<Token>
    requires size > 0
  {
    if InLast(count, size) < size then [Comma, EntryToken(e)]
    else [CloseBatch, Comma, HeaderToken(header), EntryToken(e)]
  }

  lemma {:induction false} LastIsFull(header: Header, entries: seq<Entry>, size: nat, e: Entry)
    requires |entries| == size > 0
    ensures Batched(header, entries + [e], size)
         == Batched(header, entries, size) + [CloseBatch, Comma, HeaderToken(header), EntryToken(e)]
  {
    var all := entries + [e];
    assert all[..size] == entries && all[size..] == [e];
    var open, one := Open(Batch(header, entries)), [HeaderToken(header), EntryToken(e)];
    assert Open(Batch(header, [e])) == one;
    Regrouped(open, [CloseBatch], [Comma], one);
    assert [CloseBatch] + [Comma] + one == [CloseBatch, Comma, HeaderToken(header), EntryToken(e)];
  }

  lemma {:induction false} FirstIsFull(header: Header, entries: seq<Entry>, size: nat, e: Entry)
    requires |entries| > size > 0
    requires Batched(header, entries[size..] + [e], size)
          == Batched(header, entries[size..], size) + More(header, |entries| - size, size, e)
    ensures Batched(header, entries + [e], size)
         == Batched(header, entries, size) + More(header, |entries| - size, size, e)
  {
    var all, full := entries + [e], Tokens(Batch(header, entries[..size]));
    assert all[..size] == entries[..size] && all[size..] == entries[size..] + [e];
    Regrouped(full, [Comma], Batched(header, entries[size..], size), More(header, |entries| - size, size, e));
  }

  lemma {:induction false} InLastGrows(count: nat, size: nat)
    requires size > 0 && count > 0
    ensures 0 < InLast(count, size) <= size
    ensures InLast(count + 1, size) == if InLast(count, size) < size then InLast(count, size) + 1 else 1
  {
    if count > size {
      InLastGrows(count - size, size);
    }
  }

  lemma {:induction false} BatchedGrows(header: Header, entries: seq<Entry>, size: nat, e: Entry)
    requires size > 0 && entries != []
    ensures Batched(header, entries + [e], size) == Batched(header, entries, size) + More(header, |entries|, size, e)
    decreases |entries|
  {
    if |entries| < size {
      OpenExtended(header, entries, e);
    } else if |entries| == size {
      LastIsFull(header, entries, size, e);
    } else {
      var rest := entries[size..];
      BatchedGrows(header, rest, size, e);
      assert InLast(|entries|, size) == InLast(|rest|, size);
      FirstIsFull(header, entries, size, e);
    }
  }

  lemma {:induction false} Regrouped(a: seq<Token>, b: seq<Token>, c: seq<Token>, d: seq<Token>)
    ensures a + b + c + d == a + (b + c + d)
    ensures a + b + (c + d) == a + b + c + d
  {
  }

  function Increments(id: string, entries: seq<Entry>): (calls: seq<Call>)
    requires forall i | 0 <= i < |entries| :: entries[i].CounterDelta?
    ensures |calls| == |entries|
  {
    seq(|entries|, i requires 0 <= i < |entries| => Increment(id, entries[i].name, entries[i].delta))
  }

  function Appends(entries: seq<Entry>): (calls: seq<Call>)
    requires forall i | 0 <= i < |entries| :: entries[i].TimeSeriesPoint?
    ensures |calls| == |entries|
  {
    seq(|entries|, i requires 0 <= i < |entries| => Append(entries[i].timestamp, entries[i].values, entries[i].tag))
  }

  lemma {:induction false} LastCall(batchSize: nat, calls: seq<Call>, call: Call)
    requires Play(batchSize, calls).Some?
    ensures Play(batchSize, calls + [call])
         == if CanCall(Play(batchSize, calls).value.state, call) then
              Some(Next(Play(batchSize, calls).value, batchSize, call))
            else None
  {
    assert (calls + [call])[..|calls|] == calls;
  }

  ghost predicate CountersWritten(s: State, id: string, entries: seq<Entry>) {
    && s.started && !s.first && s.progress.CountersRunning? && s.series.None? && !s.countersFirst
    && s.countersId == Some(id) && s.countersInBatch == InLast(|entries|, 1024)
    && s.out == [OpenList] + Batched(CountersHeader(id), entries, 1024)
  }

  lemma {:induction false} FirstIncrement(batchSize: nat, id: string, e: Entry)
    requires id != "" && e.CounterDelta?
    ensures CountersWritten(IncrementCounter(INIT, id, e.name, e.delta), id, [e])
  {
    IncrementOpens(EnsureStream(INIT), id, e.name, e.delta);
    assert [OpenList] + [] + [HeaderToken(CountersHeader(id)), EntryToken(e)]
        == [OpenList] + Open(Batch(CountersHeader(id), [e]));
    assert IncrementCounter(INIT, id, e.name, e.delta) == IncrementCounter(EnsureStream(INIT), id, e.name, e.delta);
  }

  lemma {:induction false} NextIncrement(s: State, id: string, entries: seq<Entry>, e: Entry)
    requires id != "" && e.CounterDelta? && entries != [] && CountersWritten(s, id, entries)
    ensures CountersWritten(IncrementCounter(s, id, e.name, e.delta), id, entries + [e])
  {
    var header := CountersHeader(id);
    BatchedGrows(header, entries, 1024, e);
    InLastGrows(|entries|, 1024);
    if s.countersInBatch < 1024 {
      IncrementExtends(s, id, e.name, e.delta);
    } else {
      IncrementOpens(s, id, e.name, e.delta);
      CloseAndOpen(s.out, header, e);
    }
  }

  lemma {:induction false} IncrementsWritten(batchSize: nat, id: string, entries: seq<Entry>)
    requires id != "" && entries != [] && forall i | 0 <= i < |entries| :: entries[i].CounterDelta?
    ensures Play(batchSize, Increments(id, entries)).Some?
    ensures CountersWritten(Play(batchSize, Increments(id, entries)).value.state, id, entries)
  {
    var front, e := entries[..|entries| - 1], entries[|entries| - 1];
    var calls, call := Increments(id, front), Increment(id, e.name, e.delta);
    assert entries == front + [e] && Increments(id, entries) == calls + [call];
    if front == [] {
      assert calls == [] && Play(batchSize, []) == Some(Trace(INIT, 0, []));
      FirstIncrement(batchSize, id, e);
    } else {
      IncrementsWritten(batchSize, id, front);
      NextIncrement(Play(batchSize, calls).value.state, id, front, e);
    }
    LastCall(batchSize, calls, call);
  }

  /** Any number of increments for one document is sent in batches of 1024, and the rest in one more. */
  lemma {:induction false} IncrementsAreBatched(batchSize: nat, id: string, entries: seq<Entry>)
    requires id != "" && entries != [] && forall i | 0 <= i < |entries| :: entries[i].CounterDelta?
    ensures Play(batchSize, Increments(id, entries)).Some?
    ensures Finish(Play(batchSize, Increments(id, entries)).value.state)
         == Sent([OpenList] + Batched(CountersHeader(id), entries, 1024) + [CloseBatch] + [CloseList])
  {
    IncrementsWritten(batchSize, id, entries);
  }

  ghost predicate SeriesWritten(s: State, id: string, name: string, entries: seq<Entry>, size: nat)
    requires size > 0
  {
    && s.started && s.countersId.None? && s.progress.TimeSeriesRunning?
    && s.series == Some(Series(id, name, false, InLast(|entries|, size)))
    && s.out == [OpenList] + Batched(TimeSeriesHeader(id, name), entries, size)
  }

  lemma {:induction false} FirstAppend(id: string, name: string, size: nat, e: Entry)
    requires size > 0 && id != "" && ValidSeriesName(name) && e.TimeSeriesPoint?
    ensures SeriesWritten(AppendPoint(OpenTimeSeries(INIT, id, name), size, e), id, name, [e], size)
  {
    var s, header := OpenTimeSeries(INIT, id, name), TimeSeriesHeader(id, name);
    AppendOpens(EnsureStream(s), size, e);
    assert [OpenList] + [] + [HeaderToken(header), EntryToken(e)] == [OpenList] + Open(Batch(header, [e]));
    assert AppendPoint(s, size, e) == AppendPoint(EnsureStream(s), size, e);
  }

  lemma {:induction false} CloseAndOpen(out: seq<Token>, header: Header, e: Entry)
    ensures out + [CloseBatch, Comma] + [HeaderToken(header), EntryToken(e)]
         == out + [CloseBatch, Comma, HeaderToken(header), EntryToken(e)]
  {
  }

  lemma {:induction false} NextAppend(s: State, id: string, name: string, entries: seq<Entry>, size: nat, e: Entry)
    requires size > 0 && entries != [] && SeriesWritten(s, id, name, entries, size)
    ensures SeriesWritten(AppendPoint(s, size, e), id, name, entries + [e], size)
  {
    var header := TimeSeriesHeader(id, name);
    BatchedGrows(header, entries, size, e);
    InLastGrows(|entries|, size);
    if s.series.value.inBatch < size {
      AppendExtends(s, size, e);
    } else {
      AppendOpens(s, size, e);
      CloseAndOpen(s.out, header, e);
    }
  }

  lemma {:induction false} AppendsWritten(size: nat, id: string, name: string, entries: seq<Entry>)
    requires size > 0 && id != "" && ValidSeriesName(name)
    requires entries != [] && forall i | 0 <= i < |entries| :: entries[i].TimeSeriesPoint?
    ensures Play(size, [OpenSeries(id, name)] + Appends(entries)).Some?
    ensures SeriesWritten(Play(size, [OpenSeries(id, name)] + Appends(entries)).value.state, id, name, entries, size)
  {
    var front, e := entries[..|entries| - 1], entries[|entries| - 1];
    var calls, call := [OpenSeries(id, name)] + Appends(front), Append(e.timestamp, e.values, e.tag);
    assert entries == front + [e] && [OpenSeries(id, name)] + Appends(entries) == calls + [call];
    if front == [] {
      assert calls == [OpenSeries(id, name)];
      LastCall(size, [], OpenSeries(id, name));
      FirstAppend(id, name, size, e);
    } else {
      AppendsWritten(size, id, name, front);
      NextAppend(Play(size, calls).value.state, id, name, front, size, e);
    }
    LastCall(size, calls, call);
  }

  /** Any number of points of one time series is sent in batches of the configured size, and the
      rest in one more. */
  lemma {:induction false} PointsAreBatched(size: nat, id: string, name: string, entries: seq<Entry>)
    requires size > 0 && id != "" && ValidSeriesName(name)
    requires entries != [] && forall i | 0 <= i < |entries| :: entries[i].TimeSeriesPoint?
    ensures var calls := [OpenSeries(id, name)] + Appends(entries) + [DisposeSeries];
      && Play(size, calls).Some?
      && Finish(Play(size, calls).value.state)
         == Sent([OpenList] + Batched(TimeSeriesHeader(id, name), entries, size) + [CloseBatch] + [CloseList])
  {
    AppendsWritten(size, id, name, entries);
    LastCall(size, [OpenSeries(id, name)] + Appends(entries), DisposeSeries);
  }

  // ---------------------------------------------------------------------------------
  // What is accepted

  /** The name starts with the prefix of incremental series, in any case, without an at sign. */
  predicate IncrementalWithoutUnit(name: string) {
    |name| >= 4 && SameSpelling(name[..4], "INC:") && '@' !in name
  }

  lemma {:induction false} SeriesNameExactlyWhen(name: string)
    ensures ValidSeriesName(name) <==> name != "" && !IncrementalWithoutUnit(name)
  {
    if |name| >= 4 {
      EqualsIgnoreCaseExactlyWhen(name[..4], "INC:");
      assert Lower(name)[..4] == Lower(name[..4]);
    }
    assert |Lower("INC:")| == 4;
  }

  lemma {:induction false} RunningExactlyWhenOpen(batchSize: nat, calls: seq<Call>)
    requires batchSize > 0 && Play(batchSize, calls).Some?
    ensures var s := Play(batchSize, calls).value.state; s.progress.TimeSeriesRunning? <==> s.series.Some?
  {
    var items := RunExplained(batchSize, calls);
  }

  /** After any calls a document is taken exactly when its id is not empty and does not end in a
      bar, and no time series is open. */
  lemma {:induction false} DocumentTakenExactlyWhen(batchSize: nat, calls: seq<Call>, id: string, json: string)
    requires batchSize > 0 && Play(batchSize, calls).Some?
    ensures var t := Play(batchSize, calls).value;
      Next(t, batchSize, Store(id, json)).records
      == if t.state.series.None? && |id| > 0 && id[|id| - 1] != '|' then t.records + [DocumentRecord(id, json)]
         else t.records
  {
    RunningExactlyWhenOpen(batchSize, calls);
    assert Play(batchSize, calls).value.records + [] == Play(batchSize, calls).value.records;
  }

  /** After any calls a time series is opened exactly when none is open, the id is not empty, and
      the name is neither empty nor that of an incremental series without a unit. */
  lemma {:induction false} SeriesOpensExactlyWhen(batchSize: nat, calls: seq<Call>, id: string, name: string)
    requires batchSize > 0 && Play(batchSize, calls).Some?
    ensures var s := Play(batchSize, calls).value.state;
      OpenTimeSeries(s, id, name).series
      == if s.series.None? && |id| > 0 && |name| > 0 && !IncrementalWithoutUnit(name) then
           Some(Series(id, name, true, 0))
         else s.series
  {
    RunningExactlyWhenOpen(batchSize, calls);
    SeriesNameExactlyWhen(name);
  }
}
