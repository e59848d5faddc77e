/** Decoding what a bulk insert run has sent gives back what its caller asked for, exactly when the
    commas are all there. */
module BulkInsertRoundTrip {
  import opened BulkInsertGrammar
  import opened BulkInsertState
  import opened Wrappers

  /** A command of the stream; a time-series batch also tells which object wrote it. */
  datatype Item = Item(session: nat, command: Command)

  predicate IsSeries(item: Item) {
    item.command.Batch? && item.command.header.TimeSeriesHeader?
  }

  /** The commands after which commas are written: attachments and time series never start that. */
  predicate Clears(item: Item) {
    item.command.Document? || item.command.HeartBeat? || (item.command.Batch? && item.command.header.CountersHeader?)
  }

  predicate Continues(items: seq<Item>, k: nat) {
    0 < k < |items| && IsSeries(items[k]) && IsSeries(items[k - 1]) && items[k].session == items[k - 1].session
  }

  predicate SomeClears(items: seq<Item>) {
    exists j | 0 <= j < |items| :: Clears(items[j])
  }

  predicate CommaBefore(items: seq<Item>, k: nat)
    requires k < |items|
  {
    Continues(items, k) || SomeClears(items[..k])
  }

  function Pieces(items: seq<Item>): (r: seq<Piece>)
    ensures |r| == |items|
    ensures forall k | 0 <= k < |items| :: r[k] == Piece(CommaBefore(items, k), items[k].command)
  {
    seq(|items|, k requires 0 <= k < |items| => Piece(CommaBefore(items, k), items[k].command))
  }

  lemma {:induction false} PiecesAppend(items: seq<Item>, x: Item)
    ensures Pieces(items + [x]) == Pieces(items) + [Piece(CommaBefore(items + [x], |items|), x.command)]
    ensures (items + [x])[..|items|] == items
  {
    forall k | 0 <= k < |items| ensures CommaBefore(items + [x], k) == CommaBefore(items, k) {
      assert (items + [x])[..k] == items[..k];
    }
  }

  function Shown(items: seq<Item>): seq<Token> {
    [OpenList] + Emit(Pieces(items))
  }

  lemma {:induction false} ShownAppend(items: seq<Item>, x: Item)
    ensures Shown(items + [x])
            == Shown(items) + (if CommaBefore(items + [x], |items|) then [Comma] else []) + Tokens(x.command)
  {
    PiecesAppend(items, x);
    EmitAppend(Pieces(items), Piece(CommaBefore(items + [x], |items|), x.command));
  }

  /** The items with one more entry in the last batch. */
  function Extend(items: seq<Item>, e: Entry): seq<Item>
    requires items != [] && items[|items| - 1].command.Batch?
  {
    var last := items[|items| - 1];
    items[..|items| - 1] + [last.(command := last.command.(entries := last.command.entries + [e]))]
  }

  lemma {:induction false} CommaOfExtended(init: seq<Item>, last: Item, entries: seq<Entry>)
    requires last.command.Batch?
    ensures CommaBefore(init + [last.(command := last.command.(entries := entries))], |init|)
            == CommaBefore(init + [last], |init|)
  {
    var items, items' := init + [last], init + [last.(command := last.command.(entries := entries))];
    assert items[..|init|] == init && items'[..|init|] == init;
    if |init| > 0 {
      assert items[|init| - 1] == items'[|init| - 1];
    }
  }

  lemma {:induction false} OpenExtended(header: Header, entries: seq<Entry>, e: Entry)
    requires entries != []
    ensures Open(Batch(header, entries + [e])) == Open(Batch(header, entries)) + [Comma, EntryToken(e)]
  {
    JoinAppend(entries, e);
  }

  lemma {:induction false} CancelLast(a: seq<Token>, b: seq<Token>, c: Token)
    requires a + [c] == b + [c]
    ensures a == b
  {
    assert (a + [c])[..|a|] == a && (b + [c])[..|b|] == b;
  }

  lemma {:induction false} AddedBeforeClose(out: seq<Token>, lead: seq<Token>, open: seq<Token>, added: seq<Token>)
    requires out + [CloseBatch] == lead + open + [CloseBatch]
    ensures out + added + [CloseBatch] == lead + (open + added) + [CloseBatch]
  {
    CancelLast(out, lead + open, CloseBatch);
    assert lead + open + added == lead + (open + added);
  }

  lemma {:induction false} ShownOpen(init: seq<Item>, last: Item)
    requires last.command.Batch?
    ensures Shown(init + [last])
            == Shown(init) + (if CommaBefore(init + [last], |init|) then [Comma] else []) + Open(last.command)
                + [CloseBatch]
  {
    ShownAppend(init, last);
  }

  lemma {:induction false} ShownExtend(out: seq<Token>, items: seq<Item>, e: Entry)
    requires items != [] && items[|items| - 1].command.Batch? && items[|items| - 1].command.entries != []
    requires out + [CloseBatch] == Shown(items)
    ensures out + [Comma, EntryToken(e)] + [CloseBatch] == Shown(Extend(items, e))
  {
    var init, last := items[..|items| - 1], items[|items| - 1];
    var header, entries := last.command.header, last.command.entries;
    var last' := last.(command := last.command.(entries := entries + [e]));
    var lead := Shown(init) + (if CommaBefore(items, |init|) then [Comma] else []);
    assert items == init + [last];
    ShownOpen(init, last);
    AddedBeforeClose(out, lead, Open(last.command), [Comma, EntryToken(e)]);
    OpenExtended(header, entries, e);
    CommaOfExtended(init, last, entries + [e]);
    ShownOpen(init, last');
  }

  /** A batch that has just been opened with one entry. */
  lemma {:induction false} ShownNewBatch(out: seq<Token>, items: seq<Item>, session: nat, header: Header, e: Entry)
    requires out == Shown(items)
    ensures var x := Item(session, Batch(header, [e]));
            out + (if CommaBefore(items + [x], |items|) then [Comma] else [])
            + [HeaderToken(header), EntryToken(e)] + [CloseBatch] == Shown(items + [x])
  {
    ShownAppend(items, Item(session, Batch(header, [e])));
  }

  // ---------------------------------------------------------------------------------
  // What a state has to do with the commands written so far

  function Closing(s: State): seq<Token> {
    if s.countersId.Some? || (s.series.Some? && !s.series.value.first) then [CloseBatch] else []
  }

  ghost predicate StreamShown(s: State, items: seq<Item>) {
    if s.started then s.out + Closing(s) == Shown(items) else s.out == [] && items == []
  }

  function Last(items: seq<Item>): Item
    requires items != []
  {
    items[|items| - 1]
  }

  ghost predicate CountersShown(s: State, items: seq<Item>) {
    s.countersId.Some? ==>
      && s.progress.CountersRunning? && s.started && items != [] && Last(items).command.Batch?
      && Last(items).command.header == CountersHeader(s.countersId.value)
      && |Last(items).command.entries| == s.countersInBatch > 0 && !s.countersFirst
  }

  ghost predicate SeriesShown(s: State, sessions: nat, items: seq<Item>) {
    && (s.progress.TimeSeriesRunning? <==> s.series.Some?)
    && (s.series.Some? ==>
          if s.series.value.first then
            forall k | 0 <= k < |items| && IsSeries(items[k]) :: items[k].session < sessions
          else
            && s.started && items != [] && Last(items).command.Batch? && Last(items).session == sessions
            && Last(items).command.header == TimeSeriesHeader(s.series.value.id, s.series.value.name)
            && |Last(items).command.entries| == s.series.value.inBatch > 0)
  }

  function Limit(header: Header, batchSize: nat): nat {
    if header.CountersHeader? then MAX_COUNTERS_IN_BATCH else batchSize
  }

  /** A command the decoder can read back, its batch not over the limit. */
  ghost predicate GoodItem(item: Item, batchSize: nat, sessions: nat) {
    && WellFormed(item.command)
    && (item.command.Batch? ==> |item.command.entries| <= Limit(item.command.header, batchSize))
    && (IsSeries(item) ==> item.session <= sessions)
  }

  ghost predicate GoodItems(items: seq<Item>, batchSize: nat, sessions: nat) {
    forall k | 0 <= k < |items| :: GoodItem(items[k], batchSize, sessions)
  }

  // ---------------------------------------------------------------------------------
  // Records

  function EntryRecord(session: nat, header: Header, e: Entry): Record {
    match e
    case CounterDelta(name, delta) => CounterRecord(header.id, name, delta)
    case TimeSeriesPoint(_, _, _) =>
      PointRecord(session, header.id, if header.TimeSeriesHeader? then header.name else "", e)
  }

  function EntryRecords(session: nat, header: Header, entries: seq<Entry>): (r: seq<Record>)
    ensures |r| == |entries|
  {
    seq(|entries|, k requires 0 <= k < |entries| => EntryRecord(session, header, entries[k]))
  }

  function ItemRecords(item: Item): seq<Record> {
    match item.command
    case Document(id, json) => [DocumentRecord(id, json)]
    case HeartBeat => [HeartBeatRecord]
    case Attachment(id, name, contentType, bytes) => [AttachmentRecord(id, name, contentType, bytes)]
    case Batch(header, entries) => EntryRecords(item.session, header, entries)
  }

  function Flatten(items: seq<Item>): seq<Record> {
    if items == [] then [] else Flatten(items[..|items| - 1]) + ItemRecords(Last(items))
  }

  /** The same character, or the two cases of one letter. */
  predicate SameLetter(c: char, d: char) {
    || c == d
    || ('A' <= c <= 'Z' && d as int == c as int + 32)
    || ('A' <= d <= 'Z' && c as int == d as int + 32)
  }

  predicate SameSpelling(a: string, b: string) {
    |a| == |b| && forall i | 0 <= i < |a| :: SameLetter(a[i], b[i])
  }

  /** Ids are told apart by anything but the case of letters. */
  lemma {:induction false} EqualsIgnoreCaseExactlyWhen(a: string, b: string)
    ensures EqualsIgnoreCase(a, b) <==> SameSpelling(a, b)
  {
    if EqualsIgnoreCase(a, b) {
      assert |Lower(a)| == |Lower(b)|;
      forall i | 0 <= i < |a| ensures SameLetter(a[i], b[i]) {
        assert Lower(a)[i] == Lower(b)[i];
      }
    }
    if SameSpelling(a, b) {
      forall i | 0 <= i < |a| ensures Lower(a)[i] == Lower(b)[i] {
        assert SameLetter(a[i], b[i]);
      }
    }
  }

  /** Equal, except that the document id of a counter may differ in case: a batch keeps the
      spelling of its first increment. */
  predicate SameRecord(a: Record, b: Record) {
    if a.CounterRecord? && b.CounterRecord? then
      SameSpelling(a.id, b.id) && a.name == b.name && a.delta == b.delta
    else a == b
  }

  ghost predicate SameRecords(a: seq<Record>, b: seq<Record>) {
    |a| == |b| && forall k | 0 <= k < |a| :: SameRecord(a[k], b[k])
  }

  lemma {:induction false} FlattenAppend(items: seq<Item>, x: Item)
    ensures Flatten(items + [x]) == Flatten(items) + ItemRecords(x)
  {
    assert (items + [x])[..|items|] == items;
  }

  lemma {:induction false} FlattenExtend(items: seq<Item>, e: Entry)
    requires items != [] && Last(items).command.Batch?
    ensures Flatten(Extend(items, e)) == Flatten(items)
        + [EntryRecord(Last(items).session, Last(items).command.header, e)]
  {
    var init, last := items[..|items| - 1], Last(items);
    assert items == init + [last];
    FlattenAppend(init, last);
    FlattenAppend(init, Last(Extend(items, e)));
  }

  // ---------------------------------------------------------------------------------
  // The invariant of a run

  ghost predicate Explains(t: Trace, batchSize: nat, items: seq<Item>) {
    && StreamShown(t.state, items)
    && (t.state.first <==> !SomeClears(items))
    && CountersShown(t.state, items)
    && SeriesShown(t.state, t.sessions, items)
    && GoodItems(items, batchSize, t.sessions)
    && SameRecords(Flatten(items), t.records)
  }

  lemma {:induction false} SomeClearsAppend(items: seq<Item>, x: Item)
    ensures SomeClears(items + [x]) <==> SomeClears(items) || Clears(x)
  {
    if SomeClears(items) {
      var j :| 0 <= j < |items| && Clears(items[j]);
      assert Clears((items + [x])[j]);
    }
    if Clears(x) {
      assert Clears((items + [x])[|items|]);
    }
  }

  lemma {:induction false} SomeClearsExtend(items: seq<Item>, e: Entry)
    requires items != [] && Last(items).command.Batch?
    ensures SomeClears(Extend(items, e)) <==> SomeClears(items)
  {
    var init := items[..|items| - 1];
    SomeClearsAppend(init, Last(items));
    SomeClearsAppend(init, Last(Extend(items, e)));
    assert items == init + [Last(items)];
  }

  lemma {:induction false} RecordsAppend(old_: seq<Record>, records: seq<Record>, more: seq<Record>, added: seq<Record>)
    requires SameRecords(old_, records) && SameRecords(more, added)
    ensures SameRecords(old_ + more, records + added)
  {
  }

  lemma {:induction false} AddedItem(t: Trace, batchSize: nat, items: seq<Item>, x: Item, s': State, added: seq<Record>)
    requires Explains(t, batchSize, items)
    requires StreamShown(s', items + [x]) && CountersShown(s', items + [x]) && SeriesShown(s', t.sessions, items + [x])
    requires s'.first <==> t.state.first && !Clears(x)
    requires GoodItem(x, batchSize, t.sessions)
    requires SameRecords(ItemRecords(x), added)
    ensures Explains(Trace(s', t.sessions, t.records + added), batchSize, items + [x])
  {
    SomeClearsAppend(items, x);
    FlattenAppend(items, x);
    RecordsAppend(Flatten(items), t.records, ItemRecords(x), added);
  }

  lemma {:induction false} ExtendedIsGood(items: seq<Item>, e: Entry, batchSize: nat, sessions: nat)
    requires GoodItems(items, batchSize, sessions) && items != [] && Last(items).command.Batch?
    requires Fits(Last(items).command.header, e)
    requires |Last(items).command.entries| + 1 <= Limit(Last(items).command.header, batchSize)
    ensures GoodItems(Extend(items, e), batchSize, sessions)
  {
    assert GoodItem(Last(items), batchSize, sessions);
    var last' := Last(Extend(items, e));
    assert WellFormed(last'.command);
    assert forall k | 0 <= k < |items| - 1 :: Extend(items, e)[k] == items[k];
  }

  lemma {:induction false} ExtendedItem(t: Trace, batchSize: nat, items: seq<Item>, e: Entry, s': State, added: Record)
    requires Explains(t, batchSize, items) && items != [] && Last(items).command.Batch?
    requires StreamShown(s', Extend(items, e)) && CountersShown(s', Extend(items, e))
        && SeriesShown(s', t.sessions, Extend(items, e))
    requires s'.first == t.state.first
    requires Fits(Last(items).command.header, e)
    requires |Last(items).command.entries| + 1 <= Limit(Last(items).command.header, batchSize)
    requires SameRecord(EntryRecord(Last(items).session, Last(items).command.header, e), added)
    ensures Explains(Trace(s', t.sessions, t.records + [added]), batchSize, Extend(items, e))
  {
    SomeClearsExtend(items, e);
    FlattenExtend(items, e);
    RecordsAppend(Flatten(items), t.records,
                  [EntryRecord(Last(items).session, Last(items).command.header, e)], [added]);
    ExtendedIsGood(items, e, batchSize, t.sessions);
  }

  lemma {:induction false} EnsuredStream(t: Trace, batchSize: nat, items: seq<Item>)
    requires Explains(t, batchSize, items)
    ensures Explains(t.(state := EnsureStream(t.state)), batchSize, items)
  {
    assert Pieces([]) == [];
  }

  lemma {:induction false} EndedPrevious(t: Trace, batchSize: nat, items: seq<Item>)
    requires Explains(t, batchSize, items)
    ensures match EndPrevious(t.state)
            case None => t.state.series.Some?
            case Some(s1) =>
              && Explains(t.(state := s1), batchSize, items) && Closing(s1) == []
              && s1.series.None? && s1.first == t.state.first && s1.started == t.state.started
  {
  }

  /** A document, heartbeat or attachment after the previous command has been ended. */
  lemma {:induction false} SingleWritten(t: Trace, batchSize: nat, items: seq<Item>, command: Command, s': State,
      added: seq<Record>)
    requires Explains(t, batchSize, items) && Closing(t.state) == [] && t.state.series.None? && t.state.started
    requires !command.Batch?
    requires s'.out == WriteComma(t.state).out + Tokens(command)
    requires s'.started && s'.series.None? && s'.countersId.None? && !s'.progress.TimeSeriesRunning?
    requires s'.first <==> t.state.first && command.Attachment?
    requires added == ItemRecords(Item(0, command))
    ensures Explains(Trace(s', t.sessions, t.records + added), batchSize, items + [Item(0, command)])
  {
    var x := Item(0, command);
    ShownAppend(items, x);
    CloseThenComma(t.state.out, []);
    CloseThenComma(s'.out, []);
    assert (items + [x])[..|items|] == items;
    assert !Continues(items + [x], |items|);
    assert SameRecords(ItemRecords(x), added);
    AddedItem(t, batchSize, items, x, s', added);
  }

  lemma {:induction false} CloseThenComma(out: seq<Token>, rest: seq<Token>)
    ensures out + [CloseBatch, Comma] + rest == out + [CloseBatch] + [Comma] + rest
    ensures out + [] == out
  {
  }

  // ---------------------------------------------------------------------------------
  // Counters

  /** What an increment writes when the running batch takes it. */
  lemma {:induction false} IncrementExtends(s: State, id: string, name: string, delta: int)
    requires s.started && id != "" && !s.progress.TimeSeriesRunning? && !s.countersFirst
    requires s.countersId.Some? && EqualsIgnoreCase(s.countersId.value, id) && s.countersInBatch < MAX_COUNTERS_IN_BATCH
    ensures IncrementCounter(s, id, name, delta)
            == s.(out := s.out + [Comma, EntryToken(CounterDelta(name, delta))], countersInBatch := s.countersInBatch
                + 1)
  {
    assert [Comma] + [EntryToken(CounterDelta(name, delta))] == [Comma, EntryToken(CounterDelta(name, delta))];
  }

  /** The document under which an increment opens a batch. */
  function BatchId(s: State, id: string): string {
    if s.countersId.Some? && EqualsIgnoreCase(s.countersId.value, id) then s.countersId.value else id
  }

  /** What it writes when it opens a batch, for another document or because the batch is full. */
  lemma {:induction false} IncrementOpens(s: State, id: string, name: string, delta: int)
    requires s.started && id != "" && !s.progress.TimeSeriesRunning?
        && (s.countersId.Some? ==> s.progress.CountersRunning?)
    requires s.countersId.Some? && EqualsIgnoreCase(s.countersId.value, id)
        ==> s.countersInBatch >= MAX_COUNTERS_IN_BATCH && !s.first
    ensures var s' := IncrementCounter(s, id, name, delta);
            var lead := if s.countersId.Some? then [CloseBatch, Comma] else if s.first then [] else [Comma];
            && s'.out == s.out + lead
                + [HeaderToken(CountersHeader(BatchId(s, id))), EntryToken(CounterDelta(name, delta))]
            && s'.countersId == Some(BatchId(s, id)) && s'.progress.CountersRunning? && s'.countersInBatch == 1
            && !s'.countersFirst && !s'.first && s'.started && s'.series == s.series
  {
    var h, e := HeaderToken(CountersHeader(BatchId(s, id))), EntryToken(CounterDelta(name, delta));
    assert [h] + [e] == [h, e];
  }

  lemma {:induction false} IncrementExplained(t: Trace, batchSize: nat, items: seq<Item>, id: string, name: string,
      delta: int) returns (items': seq<Item>)
    requires Explains(t, batchSize, items) && t.state.started && id != "" && !t.state.progress.TimeSeriesRunning?
    ensures Explains(Trace(IncrementCounter(t.state, id, name, delta), t.sessions, t.records
        + [CounterRecord(id, name, delta)]),
                     batchSize, items')
  {
    var s, e := t.state, CounterDelta(name, delta);
    var s' := IncrementCounter(s, id, name, delta);
    if s.countersId.Some? {
      EqualsIgnoreCaseExactlyWhen(s.countersId.value, id);
    }
    if s.countersId.Some? && EqualsIgnoreCase(s.countersId.value, id) && s.countersInBatch < MAX_COUNTERS_IN_BATCH {
      IncrementExtends(s, id, name, delta);
      assert GoodItem(Last(items), batchSize, t.sessions);
      ShownExtend(s.out, items, e);
      items' := Extend(items, e);
      ExtendedItem(t, batchSize, items, e, s', CounterRecord(id, name, delta));
    } else {
      var x := Item(0, Batch(CountersHeader(BatchId(s, id)), [e]));
      if s.countersId.Some? {
        assert Clears(Last(items));
      }
      IncrementOpens(s, id, name, delta);
      items' := items + [x];
      ShownNewBatch(s.out + Closing(s), items, 0, x.command.header, e);
      assert items'[..|items|] == items && !Continues(items', |items|);
      CloseThenComma(s.out, [HeaderToken(x.command.header), EntryToken(e)]);
      assert s'.out == s.out + Closing(s) + (if s.first then [] else [Comma])
          + [HeaderToken(x.command.header), EntryToken(e)];
      assert SameRecords(ItemRecords(x), [CounterRecord(id, name, delta)]);
      AddedItem(t, batchSize, items, x, s', [CounterRecord(id, name, delta)]);
    }
  }

  // ---------------------------------------------------------------------------------
  // Time series

  lemma {:induction false} AppendExtends(s: State, batchSize: nat, e: Entry)
    requires s.started && s.series.Some? && !s.series.value.first && s.series.value.inBatch < batchSize
    ensures AppendPoint(s, batchSize, e)
            == s.(out := s.out + [Comma, EntryToken(e)],
                  series := Some(s.series.value.(inBatch := s.series.value.inBatch + 1)))
  {
    assert [Comma] + [EntryToken(e)] == [Comma, EntryToken(e)];
  }

  lemma {:induction false} AppendOpens(s: State, batchSize: nat, e: Entry)
    requires s.started && s.series.Some? && (!s.series.value.first ==> s.series.value.inBatch >= batchSize)
    ensures var s' := AppendPoint(s, batchSize, e);
            var sr := s.series.value;
            var lead := if !sr.first then [CloseBatch, Comma] else if s.first then [] else [Comma];
            && s'.out == s.out + lead + [HeaderToken(TimeSeriesHeader(sr.id, sr.name)), EntryToken(e)]
            && s' == s.(out := s'.out, series := Some(sr.(first := false, inBatch := 1)))
  {
    var h := HeaderToken(TimeSeriesHeader(s.series.value.id, s.series.value.name));
    assert [h] + [EntryToken(e)] == [h, EntryToken(e)];
  }

  /** The opened batch follows what was written, with the comma that its place asks for. */
  lemma {:induction false} AppendOpensShown(t: Trace, batchSize: nat, items: seq<Item>, e: Entry, x: Item)
    requires Explains(t, batchSize, items) && t.state.started && t.state.series.Some? && batchSize > 0
    requires !t.state.series.value.first ==> t.state.series.value.inBatch >= batchSize
    requires var sr := t.state.series.value;
      x == Item(t.sessions, Batch(TimeSeriesHeader(sr.id, sr.name), [e]))
    ensures StreamShown(AppendPoint(t.state, batchSize, e), items + [x])
  {
    var s, sr := t.state, t.state.series.value;
    AppendOpens(s, batchSize, e);
    var items' := items + [x];
    ShownNewBatch(s.out + Closing(s), items, t.sessions, x.command.header, e);
    assert items'[..|items|] == items;
    if items != [] {
      assert items'[|items| - 1] == Last(items);
    }
    assert Continues(items', |items|) <==> !sr.first;
    CloseThenComma(s.out, [HeaderToken(x.command.header), EntryToken(e)]);
  }

  lemma {:induction false} AppendOpensExplained(t: Trace, batchSize: nat, items: seq<Item>, e: Entry)
      returns (items': seq<Item>)
    requires Explains(t, batchSize, items) && t.state.started && t.state.series.Some? && batchSize > 0
        && e.TimeSeriesPoint?
    requires !t.state.series.value.first ==> t.state.series.value.inBatch >= batchSize
    ensures var sr := t.state.series.value;
            Explains(Trace(AppendPoint(t.state, batchSize, e), t.sessions, t.records
                + [PointRecord(t.sessions, sr.id, sr.name, e)]),
                     batchSize, items')
  {
    var s, sr := t.state, t.state.series.value;
    var x := Item(t.sessions, Batch(TimeSeriesHeader(sr.id, sr.name), [e]));
    AppendOpens(s, batchSize, e);
    AppendOpensShown(t, batchSize, items, e, x);
    items' := items + [x];
    AddedItem(t, batchSize, items, x, AppendPoint(s, batchSize, e), [PointRecord(t.sessions, sr.id, sr.name, e)]);
  }

  lemma {:induction false} AppendExplained(t: Trace, batchSize: nat, items: seq<Item>, e: Entry)
      returns (items': seq<Item>)
    requires Explains(t, batchSize, items) && t.state.started && t.state.series.Some? && batchSize > 0
        && e.TimeSeriesPoint?
    ensures var sr := t.state.series.value;
            Explains(Trace(AppendPoint(t.state, batchSize, e), t.sessions, t.records
                + [PointRecord(t.sessions, sr.id, sr.name, e)]),
                     batchSize, items')
  {
    var s, sr := t.state, t.state.series.value;
    if !sr.first && sr.inBatch < batchSize {
      AppendExtends(s, batchSize, e);
      ShownExtend(s.out, items, e);
      items' := Extend(items, e);
      ExtendedItem(t, batchSize, items, e, AppendPoint(s, batchSize, e), PointRecord(t.sessions, sr.id, sr.name, e));
    } else {
      items' := AppendOpensExplained(t, batchSize, items, e);
    }
  }

  // ---------------------------------------------------------------------------------
  // One call, and a run

  lemma {:induction false} StoreExplained(t: Trace, batchSize: nat, items: seq<Item>, id: string, json: string)
      returns (items': seq<Item>)
    requires Explains(t, batchSize, items) && t.state.started && ValidDocumentId(id)
    ensures Explains(Trace(StoreDocument(t.state, id, json), t.sessions,
                           t.records + (if t.state.progress.TimeSeriesRunning? then []
                               else [DocumentRecord(id, json)])),
                     batchSize, items')
  {
    EndedPrevious(t, batchSize, items);
    items' := items;
    match EndPrevious(t.state) {
      case None => assert t.records + [] == t.records;
      case Some(s1) =>
        items' := items + [Item(0, Document(id, json))];
        SingleWritten(t.(state := s1), batchSize, items, Document(id, json), WriteDocument(s1, id, json),
            [DocumentRecord(id, json)]);
    }
  }

  lemma {:induction false} AttachmentExplained(t: Trace, batchSize: nat, items: seq<Item>, id: string, name: string,
      contentType: string, bytes: seq<bv8>)
      returns (items': seq<Item>)
    requires Explains(t, batchSize, items) && id != ""
    ensures Explains(Trace(WriteAttachment(t.state, id, name, contentType, bytes), t.sessions,
                           t.records + (if t.state.progress.TimeSeriesRunning? then []
                               else [AttachmentRecord(id, name, contentType, bytes)])),
                     batchSize, items')
  {
    EndedPrevious(t, batchSize, items);
    items' := items;
    match EndPrevious(t.state) {
      case None => assert t.records + [] == t.records;
      case Some(s1) =>
        EnsuredStream(t.(state := s1), batchSize, items);
        var command := Attachment(id, name, contentType, bytes);
        items' := items + [Item(0, command)];
        SingleWritten(t.(state := EnsureStream(s1)), batchSize, items, command,
                      WriteAttachment(t.state, id, name, contentType, bytes),
                          [AttachmentRecord(id, name, contentType, bytes)]);
    }
  }

  lemma {:induction false} HeartBeatExplained(t: Trace, batchSize: nat, items: seq<Item>, supports: bool)
      returns (items': seq<Item>)
    requires Explains(t, batchSize, items) && t.state.started
    ensures Explains(Trace(WriteHeartBeat(t.state, true, supports), t.sessions,
                           t.records + (if supports && !t.state.progress.TimeSeriesRunning? then [HeartBeatRecord]
                               else [])),
                     batchSize, items')
  {
    EndedPrevious(t, batchSize, items);
    items' := items;
    assert t.records + [] == t.records;
    match EndPrevious(t.state) {
      case None =>
      case Some(s1) =>
        if supports {
          items' := items + [Item(0, HeartBeat)];
          SingleWritten(t.(state := s1), batchSize, items, HeartBeat, WriteHeartBeat(t.state, true, supports),
              [HeartBeatRecord]);
        }
    }
  }

  lemma {:induction false} OpenSeriesExplained(t: Trace, batchSize: nat, items: seq<Item>, id: string, name: string)
    requires Explains(t, batchSize, items) && Opens(t.state, OpenSeries(id, name))
    ensures Explains(Trace(OpenTimeSeries(t.state, id, name), t.sessions + 1, t.records), batchSize, items)
  {
    EndedPrevious(t, batchSize, items);
  }

  lemma {:induction false} DisposeExplained(t: Trace, batchSize: nat, items: seq<Item>)
    requires Explains(t, batchSize, items) && t.state.series.Some?
    ensures Explains(t.(state := DisposeTimeSeries(t.state)), batchSize, items)
  {
  }

  lemma {:induction false} DocumentCallExplained(t: Trace, batchSize: nat, items: seq<Item>, call: Call)
      returns (items': seq<Item>)
    requires Explains(t, batchSize, items) && (call.Store? || call.TryStoreSync?)
    ensures Explains(Next(t, batchSize, call), batchSize, items')
  {
    items' := items;
    assert t.records + [] == t.records;
    if call.Store? {
      if ValidDocumentId(call.id) {
        EnsuredStream(t, batchSize, items);
        items' := StoreExplained(t.(state := EnsureStream(t.state)), batchSize, items, call.id, call.json);
      }
    } else if !call.flushNeeded && !t.state.first && ValidDocumentId(call.id) {
      StartedUnlessFirst(t, batchSize, items);
      items' := StoreExplained(t, batchSize, items, call.id, call.json);
    }
  }

  lemma {:induction false} CounterCallExplained(t: Trace, batchSize: nat, items: seq<Item>, call: Call)
      returns (items': seq<Item>)
    requires Explains(t, batchSize, items) && call.Increment?
    ensures Explains(Next(t, batchSize, call), batchSize, items')
  {
    items' := items;
    assert t.records + [] == t.records;
    EnsuredStream(t, batchSize, items);
    var t0 := t.(state := EnsureStream(t.state));
    if call.id != "" && !t.state.progress.TimeSeriesRunning? {
      items' := IncrementExplained(t0, batchSize, items, call.id, call.name, call.delta);
      assert IncrementCounter(t0.state, call.id, call.name, call.delta)
          == IncrementCounter(t.state, call.id, call.name, call.delta);
    }
  }

  lemma {:induction false} HeartBeatCallExplained(t: Trace, batchSize: nat, items: seq<Item>, call: Call)
      returns (items': seq<Item>)
    requires Explains(t, batchSize, items) && call.SendHeartBeat?
    ensures Explains(Next(t, batchSize, call), batchSize, items')
  {
    items' := items;
    assert t.records + [] == t.records;
    if call.intervalExceeded {
      EnsuredStream(t, batchSize, items);
      items' := HeartBeatExplained(t.(state := EnsureStream(t.state)), batchSize, items, call.serverSupports);
    }
  }

  lemma {:induction false} SeriesCallExplained(t: Trace, batchSize: nat, items: seq<Item>, call: Call)
      returns (items': seq<Item>)
    requires Explains(t, batchSize, items) && CanCall(t.state, call) && batchSize > 0
    requires call.OpenSeries? || call.Append? || call.DisposeSeries?
    ensures Explains(Next(t, batchSize, call), batchSize, items')
  {
    items' := items;
    assert t.records + [] == t.records;
    match call {
      case OpenSeries(id, name) =>
        if Opens(t.state, call) {
          OpenSeriesExplained(t, batchSize, items, id, name);
        }
      case Append(_, _, _) =>
        items' := AppendCallExplained(t, batchSize, items, call);
      case DisposeSeries =>
        DisposeExplained(t, batchSize, items);
    }
  }

  lemma {:induction false} AppendCallExplained(t: Trace, batchSize: nat, items: seq<Item>, call: Call)
      returns (items': seq<Item>)
    requires Explains(t, batchSize, items) && CanCall(t.state, call) && batchSize > 0 && call.Append?
    ensures Explains(Next(t, batchSize, call), batchSize, items')
  {
    EnsuredStream(t, batchSize, items);
    var point := TimeSeriesPoint(call.timestamp, call.values, call.tag);
    items' := AppendExplained(t.(state := EnsureStream(t.state)), batchSize, items, point);
    assert AppendPoint(EnsureStream(t.state), batchSize, point) == AppendPoint(t.state, batchSize, point);
  }

  lemma {:induction false} StepExplained(t: Trace, batchSize: nat, items: seq<Item>, call: Call)
      returns (items': seq<Item>)
    requires Explains(t, batchSize, items) && CanCall(t.state, call) && batchSize > 0
    ensures Explains(Next(t, batchSize, call), batchSize, items')
  {
    match call {
      case Store(_, _) => items' := DocumentCallExplained(t, batchSize, items, call);
      case TryStoreSync(_, _, _) => items' := DocumentCallExplained(t, batchSize, items, call);
      case Increment(_, _, _) => items' := CounterCallExplained(t, batchSize, items, call);
      case SendHeartBeat(_, _) => items' := HeartBeatCallExplained(t, batchSize, items, call);
      case StoreAttachment(id, name, contentType, bytes) =>
        items' := items;
        assert t.records + [] == t.records;
        if id != "" {
          items' := AttachmentExplained(t, batchSize, items, id, name, contentType, bytes);
        }
      case _ => items' := SeriesCallExplained(t, batchSize, items, call);
    }
  }

  lemma {:induction false} StartedUnlessFirst(t: Trace, batchSize: nat, items: seq<Item>)
    requires Explains(t, batchSize, items) && !t.state.first
    ensures t.state.started
  {
  }

  lemma {:induction false} RunExplained(batchSize: nat, calls: seq<Call>) returns (items: seq<Item>)
    requires batchSize > 0 && Play(batchSize, calls).Some?
    ensures Explains(Play(batchSize, calls).value, batchSize, items)
  {
    if calls == [] {
      items := [];
    } else {
      var before := calls[..|calls| - 1];
      var items0 := RunExplained(batchSize, before);
      items := StepExplained(Play(batchSize, before).value, batchSize, items0, calls[|calls| - 1]);
    }
  }

  // ---------------------------------------------------------------------------------
  // The result

  /** A caller can check this: the first thing asked for starts the commas, or nothing else
      is asked for outside its attachment or its time-series object. */
  ghost predicate Safe(records: seq<Record>) {
    records == []
    || records[0].DocumentRecord? || records[0].HeartBeatRecord? || records[0].CounterRecord?
    || (records[0].AttachmentRecord? && |records| == 1)
    || (records[0].PointRecord?
        && forall k | 0 <= k < |records| :: records[k].PointRecord? && records[k].session == records[0].session)
  }

  /** The same said of the commands in the stream. */
  ghost predicate SafeItems(items: seq<Item>) {
    items == [] || Clears(items[0]) || forall k | 1 <= k < |items| :: Continues(items, k)
  }

  /** The first command that does not continue its predecessor, or the number of commands. */
  function FirstBreak(items: seq<Item>, k: nat): (r: nat)
    requires 1 <= k <= |items|
    ensures k <= r <= |items|
    ensures forall j | k <= j < r :: Continues(items, j)
    ensures r < |items| ==> !Continues(items, r)
    decreases |items| - k
  {
    if k < |items| && Continues(items, k) then FirstBreak(items, k + 1) else k
  }

  lemma {:induction false} SafeIsSeparated(items: seq<Item>)
    requires SafeItems(items)
    ensures Separated(Pieces(items))
  {
    forall k | 1 <= k < |items| ensures CommaBefore(items, k) {
      if Clears(items[0]) {
        assert Clears(items[..k][0]);
      }
    }
  }

  lemma {:induction false} UnsafeIsNotSeparated(items: seq<Item>)
    requires !SafeItems(items)
    ensures !Separated(Pieces(items))
  {
    var k := FirstBreak(items, 1);
    assert k < |items|;
    forall j | 0 <= j < k ensures !Clears(items[..k][j]) {
      if j > 0 {
        assert Continues(items, j);
      }
    }
    assert !CommaBefore(items, k);
    assert !Pieces(items)[k].comma;
  }

  // ---------------------------------------------------------------------------------
  // The first record and the first command

  lemma {:induction false} FlattenFirst(items: seq<Item>)
    requires items != [] && forall k | 0 <= k < |items| :: WellFormed(items[k].command)
    ensures ItemRecords(items[0]) != [] && ItemRecords(items[0]) <= Flatten(items)
  {
    if |items| == 1 {
      assert items[..0] == [];
    } else {
      FlattenFirst(items[..|items| - 1]);
    }
  }

  lemma {:induction false} FlattenCount(items: seq<Item>)
    requires forall k | 0 <= k < |items| :: WellFormed(items[k].command)
    ensures |Flatten(items)| >= |items|
  {
    if items != [] {
      FlattenCount(items[..|items| - 1]);
      assert WellFormed(Last(items).command);
    }
  }

  ghost predicate OneSession(records: seq<Record>, session: nat) {
    forall k | 0 <= k < |records| :: records[k].PointRecord? && records[k].session == session
  }

  /** A stream of one time-series object is a chain of its batches, and the other way round. */
  lemma {:induction false} OneSessionExactlyWhenChain(items: seq<Item>, session: nat)
    requires forall k | 0 <= k < |items| :: WellFormed(items[k].command)
    ensures OneSession(Flatten(items), session)
            <==> forall k | 0 <= k < |items| :: IsSeries(items[k]) && items[k].session == session
  {
    if items != [] {
      var init, last := items[..|items| - 1], Last(items);
      assert items == init + [last];
      OneSessionExactlyWhenChain(init, session);
      var a, b := Flatten(init), ItemRecords(last);
      assert Flatten(items) == a + b;
      assert OneSession(a + b, session) <==> OneSession(a, session) && OneSession(b, session) by {
        if OneSession(a + b, session) {
          forall k | 0 <= k < |b| ensures b[k].PointRecord? && b[k].session == session {
            assert (a + b)[|a| + k] == b[k];
          }
          forall k | 0 <= k < |a| ensures a[k].PointRecord? && a[k].session == session {
            assert (a + b)[k] == a[k];
          }
        }
      }
      LastOfSession(last, session);
    }
  }

  lemma {:induction false} LastOfSession(item: Item, session: nat)
    requires WellFormed(item.command)
    ensures OneSession(ItemRecords(item), session) <==> IsSeries(item) && item.session == session
  {
    if item.command.Batch? {
      assert Fits(item.command.header, item.command.entries[0]);
      assert ItemRecords(item)[0] == EntryRecord(item.session, item.command.header, item.command.entries[0]);
      if IsSeries(item) && item.session == session {
        forall k | 0 <= k < |ItemRecords(item)| ensures ItemRecords(item)[k].PointRecord?
            && ItemRecords(item)[k].session == session {
          assert Fits(item.command.header, item.command.entries[k]);
        }
      }
    } else {
      assert !ItemRecords(item)[0].PointRecord?;
    }
  }

  lemma {:induction false} ChainExactlyWhen(items: seq<Item>)
    requires items != [] && IsSeries(items[0])
    ensures (forall k | 1 <= k < |items| :: Continues(items, k))
            <==> forall k | 0 <= k < |items| :: IsSeries(items[k]) && items[k].session == items[0].session
  {
    var k := FirstBreak(items, 1);
    SameSessionUpTo(items, k);
  }

  lemma {:induction false} SameSessionUpTo(items: seq<Item>, k: nat)
    requires 1 <= k <= |items| && IsSeries(items[0]) && forall j | 1 <= j < k :: Continues(items, j)
    ensures forall j | 0 <= j < k :: IsSeries(items[j]) && items[j].session == items[0].session
  {
    if k > 1 {
      SameSessionUpTo(items, k - 1);
      assert Continues(items, k - 1);
    }
  }

  lemma {:induction false} SafeExactlyWhenItemsSafe(items: seq<Item>, records: seq<Record>)
    requires forall k | 0 <= k < |items| :: WellFormed(items[k].command)
    requires SameRecords(Flatten(items), records)
    ensures SafeItems(items) <==> Safe(records)
  {
    if items != [] {
      FlattenFirst(items);
      FlattenCount(items);
      var first := ItemRecords(items[0])[0];
      assert Flatten(items)[0] == first && SameRecord(first, records[0]);
      if items[0].command.Batch? {
        assert Fits(items[0].command.header, items[0].command.entries[0]);
      }
      if IsSeries(items[0]) {
        ChainExactlyWhen(items);
        OneSessionExactlyWhenChain(items, items[0].session);
        SameSessions(Flatten(items), records, items[0].session);
      } else if !Clears(items[0]) {
        if |items| == 1 {
          assert items[..0] == [] && Flatten(items) == ItemRecords(items[0]);
        } else {
          assert !Continues(items, 1);
        }
      }
    }
  }

  lemma {:induction false} SameSessions(a: seq<Record>, b: seq<Record>, session: nat)
    requires SameRecords(a, b)
    ensures OneSession(a, session) <==> OneSession(b, session)
  {
    if OneSession(a, session) {
      forall k | 0 <= k < |b| ensures b[k].PointRecord? && b[k].session == session {
        assert SameRecord(a[k], b[k]);
      }
    }
    if OneSession(b, session) {
      forall k | 0 <= k < |a| ensures a[k].PointRecord? && a[k].session == session {
        assert SameRecord(a[k], b[k]);
      }
    }
  }

  // ---------------------------------------------------------------------------------
  // Main results

  /** The decoded commands as records; which object wrote a point is not in the stream. */
  function Decoded(commands: seq<Command>): seq<Record> {
    if commands == [] then []
    else Decoded(commands[..|commands| - 1]) + ItemRecords(Item(0, commands[|commands| - 1]))
  }

  function WithoutSession(r: Record): Record {
    if r.PointRecord? then r.(session := 0) else r
  }

  function WithoutSessions(records: seq<Record>): (r: seq<Record>)
    ensures |r| == |records|
  {
    seq(|records|, k requires 0 <= k < |records| => WithoutSession(records[k]))
  }

  lemma {:induction false} DecodedAppend(commands: seq<Command>, c: Command)
    ensures Decoded(commands + [c]) == Decoded(commands) + ItemRecords(Item(0, c))
  {
    assert (commands + [c])[..|commands|] == commands;
  }

  lemma {:induction false} WithoutSessionsAppend(a: seq<Record>, b: seq<Record>)
    ensures WithoutSessions(a + b) == WithoutSessions(a) + WithoutSessions(b)
  {
  }

  lemma {:induction false} CommandsAppend(items: seq<Item>, x: Item)
    ensures CommandsOf(Pieces(items + [x])) == CommandsOf(Pieces(items)) + [x.command]
  {
    PiecesAppend(items, x);
  }

  lemma {:induction false} RecordsWithoutSession(item: Item)
    ensures ItemRecords(Item(0, item.command)) == WithoutSessions(ItemRecords(item))
  {
  }

  lemma {:induction false} DecodedIsFlattened(items: seq<Item>)
    ensures Decoded(CommandsOf(Pieces(items))) == WithoutSessions(Flatten(items))
  {
    if items == [] {
      assert CommandsOf(Pieces(items)) == [];
    } else {
      var init, last := items[..|items| - 1], Last(items);
      assert items == init + [last];
      DecodedIsFlattened(init);
      CommandsAppend(init, last);
      DecodedAppend(CommandsOf(Pieces(init)), last.command);
      RecordsWithoutSession(last);
      WithoutSessionsAppend(Flatten(init), ItemRecords(last));
    }
  }

  ghost predicate WithinLimits(commands: seq<Command>, batchSize: nat) {
    forall k | 0 <= k < |commands| && commands[k].Batch? ::
      0 < |commands[k].entries| <= Limit(commands[k].header, batchSize)
  }

  lemma {:induction false} FinishedStream(batchSize: nat, calls: seq<Call>) returns (items: seq<Item>)
    requires batchSize > 0 && Play(batchSize, calls).Some?
    requires Finish(Play(batchSize, calls).value.state).Sent?
    ensures Explains(Play(batchSize, calls).value, batchSize, items)
    ensures Finish(Play(batchSize, calls).value.state).stream == Shown(items) + [CloseList]
  {
    items := RunExplained(batchSize, calls);
    EndedPrevious(Play(batchSize, calls).value, batchSize, items);
  }

  lemma {:induction false} DecodeInside(tokens: seq<Token>)
    requires tokens != []
    ensures Decode([OpenList] + tokens + [CloseList]) == ParseCommands(tokens + [CloseList])
  {
    var stream := [OpenList] + tokens + [CloseList];
    assert stream[1..] == tokens + [CloseList];
    assert |stream[1..]| > 1;
  }

  lemma {:induction false} DecodeShown(items: seq<Item>)
    requires forall k | 0 <= k < |items| :: WellFormed(items[k].command)
    ensures Decode(Shown(items) + [CloseList]) == if SafeItems(items) then Some(CommandsOf(Pieces(items))) else None
  {
    if items == [] {
      assert Pieces(items) == [] && CommandsOf(Pieces(items)) == [];
      assert (Shown(items) + [CloseList])[1..] == [CloseList];
    } else {
      if SafeItems(items) {
        SafeIsSeparated(items);
      } else {
        UnsafeIsNotSeparated(items);
      }
      FirstToken(items[0].command);
      DecodeInside(Emit(Pieces(items)));
      ParsePieces(Pieces(items));
    }
  }

  /** For every run of calls: what has been sent can be decoded exactly when the first thing
      asked for was safe, and then it decodes to everything asked for, in order, with every
      batch closed, non-empty and within its size limit. */
  lemma {:induction false} DecodesExactlyWhenSafe(batchSize: nat, calls: seq<Call>)
    requires batchSize > 0 && Play(batchSize, calls).Some?
    requires Finish(Play(batchSize, calls).value.state).Sent?
    ensures var records := Play(batchSize, calls).value.records;
            match Decode(Finish(Play(batchSize, calls).value.state).stream)
            case None => !Safe(records)
            case Some(commands) =>
              && Safe(records)
              && SameRecords(Decoded(commands), WithoutSessions(records))
              && WithinLimits(commands, batchSize)
  {
    var t := Play(batchSize, calls).value;
    var items := FinishedStream(batchSize, calls);
    assert forall k | 0 <= k < |items| :: GoodItem(items[k], batchSize, t.sessions);
    SafeExactlyWhenItemsSafe(items, t.records);
    DecodeShown(items);
    DecodedIsFlattened(items);
    assert forall k | 0 <= k < |t.records| :: SameRecord(Flatten(items)[k], t.records[k]);
  }

  /** A run whose first call is an attachment or a time series, and what follows it, cannot be read back. */
  lemma {:induction false} AttachmentFirstIsLost()
    ensures var calls := [StoreAttachment("users/1", "photo", "", []), Store("users/2", "{}")];
            && Play(1024, calls).Some?
            && Finish(Play(1024, calls).value.state).Sent?
            && Decode(Finish(Play(1024, calls).value.state).stream).None?
  {
  }
}
