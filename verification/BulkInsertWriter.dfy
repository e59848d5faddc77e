/** The double-buffered byte writer under a bulk insert. */
module BulkInsertBytes {

  // Strings and buffers are collected in a stream object; a flush turns the collection into
  // buffers for the request body, copying everything but large buffers into exactly sized
  // arrays, and starts a new collection.

  /** A pushed string, as its UTF-8 bytes, or a pushed buffer. */
  datatype Item = Text(bytes: seq<bv8>) | Raw(bytes: seq<bv8>)

  const PASS_THROUGH_SIZE := 1024 * 1024
  const MAX_SIZE_IN_BUFFER := 1024 * 1024

  const CLOSE_BRACKET: seq<bv8> := [0x5D]

  predicate IsPassThrough(item: Item, transportKeepsBuffers: bool) {
    transportKeepsBuffers && item.Raw? && |item.bytes| >= PASS_THROUGH_SIZE
  }

  function Flat(buffers: seq<seq<bv8>>): seq<bv8> {
    if buffers == [] then [] else buffers[0] + Flat(buffers[1..])
  }

  function Bytes(items: seq<Item>): seq<bv8> {
    if items == [] then [] else items[0].bytes + Bytes(items[1..])
  }

  lemma {:induction false} FlatAppend(buffers: seq<seq<bv8>>, b: seq<bv8>)
    ensures Flat(buffers + [b]) == Flat(buffers) + b
  {
    if buffers != [] {
      assert (buffers + [b])[1..] == buffers[1..] + [b];
      FlatAppend(buffers[1..], b);
    }
  }

  lemma {:induction false} BytesAppend(items: seq<Item>, item: Item)
    ensures Bytes(items + [item]) == Bytes(items) + item.bytes
  {
    if items != [] {
      assert (items + [item])[1..] == items[1..] + [item];
      BytesAppend(items[1..], item);
    }
  }

  lemma {:induction false} BytesPrefix(items: seq<Item>, k: nat)
    requires k < |items|
    ensures Bytes(items[..k + 1]) == Bytes(items[..k]) + items[k].bytes
  {
    assert items[..k + 1] == items[..k] + [items[k]];
    BytesAppend(items[..k], items[k]);
  }

  lemma {:induction false} BytesLength(items: seq<Item>, k: nat)
    requires k <= |items|
    ensures |Bytes(items[..k])| <= |Bytes(items)|
    decreases |items| - k
  {
    if k < |items| {
      BytesPrefix(items, k);
      BytesLength(items, k + 1);
    } else {
      assert items[..k] == items;
    }
  }

  /** Copies `bytes` into `target` from `at` on. */
  method CopyInto(target: array<bv8>, at: nat, bytes: seq<bv8>)
    requires at + |bytes| <= target.Length
    modifies target
    ensures target[..at] == old(target[..at])
    ensures target[at..at + |bytes|] == bytes
  {
    var i := 0;
    while i < |bytes|
      invariant 0 <= i <= |bytes|
      invariant target[..at] == old(target[..at])
      invariant target[at..at + i] == bytes[..i]
    {
      target[at + i] := bytes[i];
      assert target[at..at + i + 1] == target[at..at + i] + [bytes[i]];
      i := i + 1;
    }
  }

  /** Fills an array of exactly the given length; its initial content does not shine through. */
  method Concat(items: seq<Item>, length: nat) returns (result: array<bv8>)
    requires length == |Bytes(items)|
    ensures fresh(result) && result[..] == Bytes(items)
  {
    result := new bv8[length];
    var idx, k := 0, 0;
    while k < |items|
      invariant 0 <= k <= |items|
      invariant idx == |Bytes(items[..k])| <= length
      invariant result[..idx] == Bytes(items[..k])
    {
      BytesPrefix(items, k);
      BytesLength(items, k + 1);
      CopyInto(result, idx, items[k].bytes);
      assert result[..idx + |items[k].bytes|] == result[..idx] + result[idx..idx + |items[k].bytes|];
      idx := idx + |items[k].bytes|;
      k := k + 1;
    }
    assert items[..k] == items;
    assert result[..] == result[..idx];
  }

  /** The items that wait are copied into one more buffer, if there are any. */
  method CopyPending(buffers: seq<seq<bv8>>, pending: seq<Item>, length: nat) returns (more: seq<seq<bv8>>)
    requires length == |Bytes(pending)|
    ensures buffers <= more && Flat(more) == Flat(buffers) + Bytes(pending)
  {
    more := buffers;
    if |pending| > 0 {
      var copied := Concat(pending, length);
      FlatAppend(buffers, Bytes(pending));
      more := buffers + [copied[..]];
    }
  }

  class BulkInsertStream {
    const transportKeepsBuffers: bool
    var items: seq<Item>
    var totalLength: nat
    var hasPassThroughBuffer: bool

    ghost predicate Valid()
      reads this
    {
      && totalLength == |Bytes(items)|
      && (hasPassThroughBuffer <==> exists k :: 0 <= k < |items| && IsPassThrough(items[k], transportKeepsBuffers))
    }

    constructor (transportKeepsBuffers: bool)
      ensures Valid() && items == [] && this.transportKeepsBuffers == transportKeepsBuffers
    {
      this.transportKeepsBuffers := transportKeepsBuffers;
      items, totalLength, hasPassThroughBuffer := [], 0, false;
    }

    method Push(item: Item)
      requires Valid()
      modifies this
      ensures Valid() && items == old(items) + [item]
    {
      BytesAppend(items, item);
      items := items + [item];
      totalLength := totalLength + |item.bytes|;
      hasPassThroughBuffer := hasPassThroughBuffer || IsPassThrough(item, transportKeepsBuffers);
      assert items[|items| - 1] == item;
      assert forall k | 0 <= k < |old(items)| :: items[k] == old(items)[k];
    }

    /** All bytes in order, the large buffers as buffers of their own and the rest copied. */
    method ToBuffers() returns (buffers: seq<seq<bv8>>)
      requires Valid()
      ensures Flat(buffers) == Bytes(items)
      ensures forall k | 0 <= k < |items| && IsPassThrough(items[k], transportKeepsBuffers) :: items[k].bytes in buffers
    {
      if !hasPassThroughBuffer {
        var whole := Concat(items, totalLength);
        buffers := [whole[..]];
        assert buffers == [] + [Bytes(items)];
        FlatAppend([], Bytes(items));
        return;
      }
      buffers := [];
      var pending: seq<Item>, pendingLength := [], 0;
      var k := 0;
      while k < |items|
        invariant 0 <= k <= |items|
        invariant pendingLength == |Bytes(pending)|
        invariant Flat(buffers) + Bytes(pending) == Bytes(items[..k])
        invariant forall j | 0 <= j < k && IsPassThrough(items[j], transportKeepsBuffers) :: items[j].bytes in buffers
      {
        BytesPrefix(items, k);
        var item := items[k];
        if IsPassThrough(item, transportKeepsBuffers) {
          buffers := CopyPending(buffers, pending, pendingLength);
          pending, pendingLength := [], 0;
          FlatAppend(buffers, item.bytes);
          buffers := buffers + [item.bytes];
        } else {
          BytesAppend(pending, item);
          pending := pending + [item];
          pendingLength := pendingLength + |item.bytes|;
        }
        k := k + 1;
      }
      assert items[..k] == items;
      buffers := CopyPending(buffers, pending, pendingLength);
    }
  }

  // ---------------------------------------------------------------------------------
  // The writer as a state machine

  datatype Writer = Writer(buffered: seq<Item>, sent: seq<bv8>, asyncWriteDone: bool, finished: bool)

  /** `AsyncWriteEnds` is the environment: the request body has taken the last flush. */
  datatype Op = Push(item: Item) | Flush | AsyncWriteEnds | Dispose

  const NEW_WRITER := Writer([], [], true, false)

  predicate FlushNeeded(w: Writer) {
    |Bytes(w.buffered)| > MAX_SIZE_IN_BUFFER || w.asyncWriteDone
  }

  function Apply(w: Writer, op: Op): Writer {
    match op
    case Push(item) => w.(buffered := w.buffered + [item])
    case Flush =>
      if FlushNeeded(w) then w.(buffered := [], sent := w.sent + Bytes(w.buffered), asyncWriteDone := false) else w
    case AsyncWriteEnds => w.(asyncWriteDone := true)
    case Dispose =>
      if w.finished then w
      else
        var items := w.buffered + [Text(CLOSE_BRACKET)];
        Writer(items, w.sent + Bytes(items), true, true)
  }

  function Run(ops: seq<Op>): Writer {
    if ops == [] then NEW_WRITER else Apply(Run(ops[..|ops| - 1]), ops[|ops| - 1])
  }

  function Pushed(ops: seq<Op>): seq<bv8> {
    if ops == [] then []
    else
      var op := ops[|ops| - 1];
      Pushed(ops[..|ops| - 1]) + if op.Push? then op.item.bytes else []
  }

  /** Before the end nothing is lost: what has been sent, then what is buffered, is what was pushed. */
  lemma {:induction false} BytesConserved(ops: seq<Op>)
    requires Dispose !in ops
    ensures !Run(ops).finished && Run(ops).sent + Bytes(Run(ops).buffered) == Pushed(ops)
  {
    if ops != [] {
      var before, op := ops[..|ops| - 1], ops[|ops| - 1];
      BytesConserved(before);
      if op.Push? {
        BytesAppend(Run(before).buffered, op.item);
      }
    }
  }

  lemma {:induction false} OneMore(ops: seq<Op>, op: Op)
    ensures Run(ops + [op]) == Apply(Run(ops), op) && Pushed(ops + [op]) == Pushed(ops) + Pushed([op])
  {
    assert (ops + [op])[..|ops|] == ops && [op][..0] == [];
  }

  /** A flush leaves at most a megabyte waiting, and nothing once the write before it has ended:
      then everything pushed has been sent. */
  lemma {:induction false} FlushEmptiesBuffer(ops: seq<Op>)
    requires Dispose !in ops
    ensures |Bytes(Run(ops + [Flush]).buffered)| <= 1024 * 1024
    ensures Run(ops + [AsyncWriteEnds] + [Flush]).buffered == []
    ensures Run(ops + [AsyncWriteEnds] + [Flush]).sent == Pushed(ops)
  {
    OneMore(ops, Flush);
    OneMore(ops, AsyncWriteEnds);
    OneMore(ops + [AsyncWriteEnds], Flush);
    BytesConserved(ops);
  }

  /** Behind a flush that handed everything over, another one waits for that write to end as long
      as no more than a megabyte has come in. */
  lemma {:induction false} FlushWaits(ops: seq<Op>, item: Item)
    requires Run(ops).asyncWriteDone && |item.bytes| <= 1024 * 1024
    ensures var w := Run(ops + [Flush] + [Push(item)]);
      && w.buffered == [item] && Run(ops + [Flush] + [Push(item)] + [Flush]) == w
  {
    OneMore(ops, Flush);
    OneMore(ops + [Flush], Push(item));
    OneMore(ops + [Flush] + [Push(item)], Flush);
    assert [] + [item] == [item];
    assert Bytes([item]) == item.bytes + Bytes([item][1..]) == item.bytes;
  }

  /** The request body receives exactly the pushed bytes in order, then the closing bracket,
      however the pushes are split by flushes; a second dispose sends nothing more. */
  lemma {:induction false} AllBytesSent(ops: seq<Op>)
    requires Dispose !in ops
    ensures Run(ops + [Dispose]).sent == Pushed(ops) + CLOSE_BRACKET
    ensures Run(ops + [Dispose, Dispose]) == Run(ops + [Dispose])
  {
    BytesConserved(ops);
    assert (ops + [Dispose])[..|ops|] == ops;
    assert (ops + [Dispose, Dispose])[..|ops| + 1] == ops + [Dispose];
    BytesAppend(Run(ops).buffered, Text(CLOSE_BRACKET));
  }

  // ---------------------------------------------------------------------------------
  // The writer object

  class BulkInsertWriter {
    const transportKeepsBuffers: bool
    var currentWriter: BulkInsertStream
    var requestBody: seq<bv8>
    var asyncWriteDone: bool
    var requestBodyStreamFinished: bool

    ghost function Model(): Writer
      reads this, currentWriter
    {
      Writer(currentWriter.items, requestBody, asyncWriteDone, requestBodyStreamFinished)
    }

    ghost predicate Valid()
      reads this, currentWriter
    {
      currentWriter.Valid() && currentWriter.transportKeepsBuffers == transportKeepsBuffers
    }

    constructor (transportKeepsBuffers: bool)
      ensures Valid() && Model() == NEW_WRITER && fresh(currentWriter)
    {
      this.transportKeepsBuffers := transportKeepsBuffers;
      currentWriter := new BulkInsertStream(transportKeepsBuffers);
      requestBody, asyncWriteDone, requestBodyStreamFinished := [], true, false;
    }

    method Write(item: Item)
      requires Valid()
      modifies currentWriter
      ensures Valid() && Model() == Apply(old(Model()), Push(item))
    {
      currentWriter.Push(item);
    }

    method WriteToStream(buffers: seq<seq<bv8>>)
      modifies `requestBody
      ensures requestBody == old(requestBody) + Flat(buffers)
    {
      var k := 0;
      while k < |buffers|
        invariant 0 <= k <= |buffers|
        invariant requestBody == old(requestBody) + Flat(buffers[..k])
      {
        assert buffers[..k + 1] == buffers[..k] + [buffers[k]];
        FlatAppend(buffers[..k], buffers[k]);
        requestBody := requestBody + buffers[k];
        k := k + 1;
      }
      assert buffers[..k] == buffers;
    }

    /** Hands the full collection over and starts an empty one. */
    method FlushIfNeeded()
      requires Valid()
      modifies this
      ensures Valid() && Model() == Apply(old(Model()), Flush)
      ensures currentWriter == old(currentWriter) || fresh(currentWriter)
    {
      if currentWriter.totalLength > MAX_SIZE_IN_BUFFER || asyncWriteDone {
        var backgroundWriter := currentWriter;
        currentWriter := new BulkInsertStream(transportKeepsBuffers);
        var buffers := backgroundWriter.ToBuffers();
        asyncWriteDone := false;
        WriteToStream(buffers);
      }
    }

    method AsyncWriteEnded()
      requires Valid()
      modifies `asyncWriteDone
      ensures Valid() && Model() == Apply(old(Model()), AsyncWriteEnds)
    {
      asyncWriteDone := true;
    }

    method DisposeWriter()
      requires Valid()
      modifies this, currentWriter
      ensures Valid() && Model() == Apply(old(Model()), Dispose)
    {
      if requestBodyStreamFinished {
        return;
      }
      currentWriter.Push(Text(CLOSE_BRACKET));
      var buffers := currentWriter.ToBuffers();
      WriteToStream(buffers);
      asyncWriteDone := true;
      requestBodyStreamFinished := true;
    }
  }
}
