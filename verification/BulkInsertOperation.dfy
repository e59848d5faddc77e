/** The bulk insert object: the fields that decide what is written, updated in place call by call,
    each method tied to the step it takes. */
module BulkInsertObject {
  import opened BulkInsertGrammar
  import opened BulkInsertState
  import opened Wrappers

  /** The operation together with its counters helper and the time-series object in use, if any. */
  class BulkInsertOperation {
    const timeSeriesBatchSize: nat
    var streamEnsured: bool
    var first: bool
    var inProgressCommand: Progress
    var countersId: Option<string>
    var countersFirst: bool
    var countersInBatch: nat
    var series: Option<Series>
    var written: seq<Token>

    ghost function Model(): State
      reads this
    {
      State(streamEnsured, first, inProgressCommand, countersId, countersFirst, countersInBatch, series, written)
    }

    constructor (timeSeriesBatchSize: nat)
      ensures Model() == INIT && this.timeSeriesBatchSize == timeSeriesBatchSize
    {
      this.timeSeriesBatchSize := timeSeriesBatchSize;
      streamEnsured, first, inProgressCommand := false, true, Idle;
      countersId, countersFirst, countersInBatch := None, true, 0;
      series, written := None, [];
    }

    method WriteTokens(ts: seq<Token>)
      modifies `written
      ensures written == old(written) + ts
    {
      written := written + ts;
    }

    method ExecuteBeforeStore()
      modifies `written, `streamEnsured
      ensures Model() == EnsureStream(old(Model()))
    {
      if !streamEnsured {
        WriteTokens([OpenList]);
        streamEnsured := true;
      }
    }

    method Separate()
      modifies `written
      ensures Model() == WriteComma(old(Model()))
    {
      if !first {
        WriteTokens([Comma]);
      }
    }

    method EndPreviousCommandIfNeeded() returns (ok: bool)
      modifies `written, `countersId
      ensures match EndPrevious(old(Model()))
              case None => !ok && Model() == old(Model())
              case Some(s) => ok && Model() == s
    {
      if inProgressCommand.CountersRunning? {
        if countersId.Some? {
          WriteTokens([CloseBatch]);
          countersId := None;
        }
      } else if inProgressCommand.TimeSeriesRunning? {
        return false;
      }
      return true;
    }

    method WriteToStream(id: string, json: string)
      modifies `written, `first, `inProgressCommand
      ensures Model() == WriteDocument(old(Model()), id, json)
    {
      inProgressCommand := Idle;
      Separate();
      first := false;
      WriteTokens([DocumentToken(id, json)]);
    }

    method StoreEntity(id: string, json: string) returns (accepted: bool)
      modifies this
      ensures Model() == Step(old(Model()), timeSeriesBatchSize, Store(id, json))
      ensures accepted <==> Records(old(Model()), 0, Store(id, json)) != []
    {
      if !ValidDocumentId(id) {
        return false;
      }
      ExecuteBeforeStore();
      var ok := EndPreviousCommandIfNeeded();
      if !ok {
        return false;
      }
      WriteToStream(id, json);
      return true;
    }

    method TryStoreEntitySync(flushNeeded: bool, id: string, json: string) returns (accepted: bool)
      modifies this
      ensures Model() == Step(old(Model()), timeSeriesBatchSize, TryStoreSync(flushNeeded, id, json))
      ensures accepted <==> Records(old(Model()), 0, TryStoreSync(flushNeeded, id, json)) != []
    {
      if flushNeeded || first {
        return false;
      }
      if !ValidDocumentId(id) {
        return false;
      }
      var ok := EndPreviousCommandIfNeeded();
      if !ok {
        return false;
      }
      WriteToStream(id, json);
      return true;
    }

    method WriteCountersPrefix(id: string)
      modifies `written, `countersFirst, `countersInBatch
      ensures Model() == CountersPrefix(old(Model()), id)
    {
      countersFirst := true;
      countersInBatch := 0;
      WriteTokens([HeaderToken(CountersHeader(id))]);
    }

    /** The first part of an increment: the batch of the counter's document is the running one. */
    method SwitchCountersTo(id: string)
      modifies this
      ensures Model() == SwitchCounters(old(Model()), id) && countersId.Some?
    {
      var isFirst := countersId.None?;
      if isFirst || !EqualsIgnoreCase(countersId.value, id) {
        if !isFirst {
          WriteTokens([CloseBatch, Comma]);
        } else if !first {
          WriteTokens([Comma]);
        }
        first := false;
        countersId := Some(id);
        inProgressCommand := CountersRunning;
        WriteCountersPrefix(id);
      }
    }

    method IncrementCounterOf(id: string, name: string, delta: int) returns (accepted: bool)
      modifies this
      ensures Model() == Step(old(Model()), timeSeriesBatchSize, Increment(id, name, delta))
      ensures accepted <==> Records(old(Model()), 0, Increment(id, name, delta)) != []
    {
      if id == "" {
        return false;
      }
      ExecuteBeforeStore();
      if inProgressCommand.TimeSeriesRunning? {
        return false;
      }
      SwitchCountersTo(id);
      if countersInBatch >= MAX_COUNTERS_IN_BATCH {
        WriteTokens([CloseBatch, Comma]);
        WriteCountersPrefix(countersId.value);
      }
      countersInBatch := countersInBatch + 1;
      WriteTokens((if countersFirst then [] else [Comma]) + [EntryToken(CounterDelta(name, delta))]);
      countersFirst := false;
      return true;
    }

    method StoreAttachmentOf(id: string, name: string, contentType: string, bytes: seq<bv8>) returns (accepted: bool)
      modifies this
      ensures Model() == Step(old(Model()), timeSeriesBatchSize, StoreAttachment(id, name, contentType, bytes))
      ensures accepted <==> Records(old(Model()), 0, StoreAttachment(id, name, contentType, bytes)) != []
    {
      if id == "" {
        return false;
      }
      var ok := EndPreviousCommandIfNeeded();
      if !ok {
        return false;
      }
      ExecuteBeforeStore();
      Separate();
      WriteTokens([AttachmentToken(id, name, contentType, |bytes|)]);
      WriteTokens([BytesToken(bytes)]);
      assert [AttachmentToken(id, name, contentType, |bytes|), BytesToken(bytes)]
          == [AttachmentToken(id, name, contentType, |bytes|)] + [BytesToken(bytes)];
      return true;
    }

    method HeartBeatTick(intervalExceeded: bool, serverSupports: bool)
      modifies this
      ensures Model() == Step(old(Model()), timeSeriesBatchSize, SendHeartBeat(intervalExceeded, serverSupports))
    {
      if !intervalExceeded {
        return;
      }
      ExecuteBeforeStore();
      var ok := EndPreviousCommandIfNeeded();
      if !ok || !serverSupports {
        return;
      }
      Separate();
      first := false;
      inProgressCommand := Idle;
      WriteTokens([HeartBeatToken]);
    }

    method TimeSeriesFor(id: string, name: string) returns (accepted: bool)
      modifies this
      ensures Model() == Step(old(Model()), timeSeriesBatchSize, OpenSeries(id, name))
      ensures accepted <==> Opens(old(Model()), OpenSeries(id, name))
    {
      if id == "" || !ValidSeriesName(name) {
        return false;
      }
      var ok := EndPreviousCommandIfNeeded();
      if !ok {
        return false;
      }
      series := Some(Series(id, name, true, 0));
      inProgressCommand := TimeSeriesRunning;
      return true;
    }

    method WriteSeriesPrefix()
      requires series.Some?
      modifies `written, `series
      ensures Model() == SeriesPrefix(old(Model()))
    {
      WriteTokens([HeaderToken(TimeSeriesHeader(series.value.id, series.value.name))]);
      series := Some(series.value.(first := true, inBatch := 0));
    }

    method AppendTo(timestamp: int, values: seq<int>, tag: string)
      requires series.Some?
      modifies this
      ensures Model() == Step(old(Model()), timeSeriesBatchSize, Append(timestamp, values, tag))
    {
      ExecuteBeforeStore();
      if series.value.first {
        Separate();
        WriteSeriesPrefix();
      } else if series.value.inBatch >= timeSeriesBatchSize {
        WriteTokens([CloseBatch, Comma]);
        WriteSeriesPrefix();
      }
      series := Some(series.value.(inBatch := series.value.inBatch + 1));
      var separator := if series.value.first then [] else [Comma];
      series := Some(series.value.(first := false));
      WriteTokens(separator + [EntryToken(TimeSeriesPoint(timestamp, values, tag))]);
    }

    method DisposeSeriesObject()
      requires series.Some?
      modifies this
      ensures Model() == Step(old(Model()), timeSeriesBatchSize, DisposeSeries)
    {
      inProgressCommand := Idle;
      if !series.value.first {
        WriteTokens([CloseBatch]);
      }
      series := None;
    }

    method FinishStream() returns (r: Finished)
      modifies `written, `countersId
      ensures r == Finish(old(Model()))
      ensures r.Sent? ==> written == r.stream
      ensures r.StillRunning? ==> Model() == old(Model())
    {
      var ok := EndPreviousCommandIfNeeded();
      if !ok {
        return StillRunning;
      }
      WriteTokens([CloseList]);
      return if streamEnsured then Sent(written) else NothingSent;
    }
  }
}
