/** The stream that a bulk insert sends: its tokens, the commands it stands for, and a decoder. */
module BulkInsertGrammar {
  import opened Wrappers

  datatype Entry =
    | CounterDelta(name: string, delta: int)
    | TimeSeriesPoint(timestamp: int, values: seq<int>, tag: string)

  datatype Header = CountersHeader(id: string) | TimeSeriesHeader(id: string, name: string)

  datatype Command =
    | Document(id: string, json: string)
    | HeartBeat
    | Attachment(id: string, name: string, contentType: string, bytes: seq<bv8>)
    | Batch(header: Header, entries: seq<Entry>)

  /** One of the strings that the client writes without looking inside it; only commas, headers
      and closing brackets matter for the shape of the stream. */
  datatype Token =
    | OpenList
    | CloseList
    | Comma
    | CloseBatch
    | DocumentToken(id: string, json: string)
    | HeartBeatToken
    | AttachmentToken(id: string, name: string, contentType: string, length: nat)
    | BytesToken(bytes: seq<bv8>)
    | HeaderToken(header: Header)
    | EntryToken(entry: Entry)

  predicate Fits(header: Header, entry: Entry) {
    header.CountersHeader? <==> entry.CounterDelta?
  }

  // ---------------------------------------------------------------------------------
  // The decoder

  /** Entries separated by commas up to the end of the batch; a batch has at least one. */
  function ParseEntries(header: Header, ts: seq<Token>): (r: Option<(seq<Entry>, seq<Token>)>)
    ensures r.Some? ==> |r.value.1| < |ts|
  {
    if |ts| < 2 || !ts[0].EntryToken? || !Fits(header, ts[0].entry) then None
    else if ts[1].CloseBatch? then Some(([ts[0].entry], ts[2..]))
    else if ts[1].Comma? then
      match ParseEntries(header, ts[2..])
      case None => None
      case Some((rest, left)) => Some(([ts[0].entry] + rest, left))
    else None
  }

  function ParseCommand(ts: seq<Token>): (r: Option<(Command, seq<Token>)>)
    ensures r.Some? ==> |r.value.1| < |ts|
  {
    if ts == [] then None
    else
      match ts[0]
      case DocumentToken(id, json) => Some((Document(id, json), ts[1..]))
      case HeartBeatToken => Some((HeartBeat, ts[1..]))
      case AttachmentToken(id, name, contentType, length) =>
        if |ts| >= 2 && ts[1].BytesToken? && |ts[1].bytes| == length then
          Some((Attachment(id, name, contentType, ts[1].bytes), ts[2..]))
        else None
      case HeaderToken(header) =>
        (match ParseEntries(header, ts[1..])
         case None => None
         case Some((entries, left)) => Some((Batch(header, entries), left)))
      case _ => None
  }

  function ParseCommands(ts: seq<Token>): Option<seq<Command>>
    decreases |ts|
  {
    match ParseCommand(ts)
    case None => None
    case Some((command, left)) =>
      if left == [CloseList] then Some([command])
      else if left != [] && left[0].Comma? then
        match ParseCommands(left[1..])
        case None => None
        case Some(rest) => Some([command] + rest)
      else None
  }

  function Decode(ts: seq<Token>): Option<seq<Command>> {
    if ts == [] || !ts[0].OpenList? then None
    else if ts[1..] == [CloseList] then Some([])
    else ParseCommands(ts[1..])
  }

  // ---------------------------------------------------------------------------------
  // Commands as tokens

  predicate WellFormed(command: Command) {
    command.Batch? ==>
      command.entries != [] && forall i | 0 <= i < |command.entries| :: Fits(command.header, command.entries[i])
  }

  function Join(entries: seq<Entry>): seq<Token> {
    if entries == [] then []
    else if |entries| == 1 then [EntryToken(entries[0])]
    else [EntryToken(entries[0]), Comma] + Join(entries[1..])
  }

  /** A command without the bracket that closes a batch. */
  function Open(command: Command): seq<Token> {
    match command
    case Document(id, json) => [DocumentToken(id, json)]
    case HeartBeat => [HeartBeatToken]
    case Attachment(id, name, contentType, bytes) => [AttachmentToken(id, name, contentType, |bytes|),
        BytesToken(bytes)]
    case Batch(header, entries) => [HeaderToken(header)] + Join(entries)
  }

  function Tokens(command: Command): seq<Token> {
    if command.Batch? then Open(command) + [CloseBatch] else Open(command)
  }

  /** A command in the stream, and whether a comma was written before it. */
  datatype Piece = Piece(comma: bool, command: Command)

  function Lead(p: Piece): seq<Token> {
    if p.comma then [Comma] else []
  }

  function Emit(pieces: seq<Piece>): seq<Token> {
    if pieces == [] then []
    else Lead(pieces[0]) + Tokens(pieces[0].command) + Emit(pieces[1..])
  }

  function CommandsOf(pieces: seq<Piece>): (r: seq<Command>)
    ensures |r| == |pieces| && forall i | 0 <= i < |r| :: r[i] == pieces[i].command
  {
    seq(|pieces|, i requires 0 <= i < |pieces| => pieces[i].command)
  }

  ghost predicate Separated(pieces: seq<Piece>) {
    forall i | 0 <= i < |pieces| :: pieces[i].comma <==> i > 0
  }

  // ---------------------------------------------------------------------------------
  // Round trip

  lemma {:induction false} ParseJoined(header: Header, entries: seq<Entry>, left: seq<Token>)
    requires WellFormed(Batch(header, entries))
    ensures ParseEntries(header, Join(entries) + [CloseBatch] + left) == Some((entries, left))
  {
    var ts := Join(entries) + [CloseBatch] + left;
    assert entries == [entries[0]] + entries[1..];
    if |entries| == 1 {
      assert entries == [entries[0]];
      assert ts == [EntryToken(entries[0]), CloseBatch] + left;
      assert ts[2..] == left;
    } else {
      ParseJoined(header, entries[1..], left);
      assert ts == [EntryToken(entries[0]), Comma] + (Join(entries[1..]) + [CloseBatch] + left);
      assert ts[2..] == Join(entries[1..]) + [CloseBatch] + left;
    }
  }

  lemma {:induction false} ParseTokens(command: Command, left: seq<Token>)
    requires WellFormed(command)
    ensures ParseCommand(Tokens(command) + left) == Some((command, left))
  {
    var ts := Tokens(command) + left;
    match command
    case Document(_, _) => assert ts[1..] == left;
    case HeartBeat => assert ts[1..] == left;
    case Attachment(_, _, _, _) => assert ts[2..] == left;
    case Batch(header, entries) =>
      assert ts[1..] == Join(entries) + [CloseBatch] + left;
      ParseJoined(header, entries, left);
  }

  lemma {:induction false} ParseStep(command: Command, left: seq<Token>)
    requires WellFormed(command)
    ensures ParseCommands(Tokens(command) + left)
            == (if left == [CloseList] then Some([command])
                else if left != [] && left[0].Comma? then
                  match ParseCommands(left[1..]) case None => None case Some(rest) => Some([command] + rest)
                else None)
  {
    ParseTokens(command, left);
  }

  /** The pieces from the second one on, without the comma before it. */
  function Tail(pieces: seq<Piece>): seq<Piece>
    requires |pieces| > 1
  {
    [Piece(false, pieces[1].command)] + pieces[2..]
  }

  lemma {:induction false} TailSeparated(pieces: seq<Piece>)
    requires |pieces| > 1 && !pieces[0].comma && pieces[1].comma
    ensures Separated(pieces) <==> Separated(Tail(pieces))
    ensures CommandsOf(pieces) == [pieces[0].command] + CommandsOf(Tail(pieces))
  {
    var tail := Tail(pieces);
    assert forall i | 1 <= i < |tail| :: tail[i] == pieces[i + 1];
    if Separated(tail) {
      forall i | 0 <= i < |pieces| ensures pieces[i].comma <==> i > 0 {
        if i > 1 {
          assert pieces[i] == tail[i - 1];
        }
      }
    }
  }

  lemma {:induction false} NoLead(tokens: seq<Token>)
    ensures [] + tokens == tokens
  {
  }

  lemma {:induction false} Assoc(a: seq<Token>, b: seq<Token>, c: seq<Token>)
    ensures a + b + c == a + (b + c)
  {
  }

  lemma {:induction false} EmitTail(pieces: seq<Piece>)
    requires |pieces| > 1 && !pieces[0].comma && pieces[1].comma
    ensures Emit(pieces) == Tokens(pieces[0].command) + ([Comma] + Emit(Tail(pieces)))
  {
    var rest, tail := pieces[1..], Tail(pieces);
    var second := Tokens(pieces[1].command);
    assert tail[1..] == rest[1..];
    NoLead(Tokens(pieces[0].command));
    NoLead(second);
    Assoc([Comma], second, Emit(rest[1..]));
    assert Emit(tail) == second + Emit(rest[1..]);
    assert Emit(rest) == [Comma] + Emit(tail);
  }

  /** The decoder accepts the pieces exactly when every command but the first has a comma before it. */
  lemma {:induction false} ParsePieces(pieces: seq<Piece>)
    requires pieces != [] && !pieces[0].comma
    requires forall i | 0 <= i < |pieces| :: WellFormed(pieces[i].command)
    ensures ParseCommands(Emit(pieces) + [CloseList])
            == if Separated(pieces) then Some(CommandsOf(pieces)) else None
    decreases |pieces|
  {
    if |pieces| == 1 {
      LastPiece(pieces);
    } else if pieces[1].comma {
      CommaStep(pieces);
      TailSeparated(pieces);
      ParsePieces(Tail(pieces));
    } else {
      MissingComma(pieces);
    }
  }

  lemma {:induction false} LastPiece(pieces: seq<Piece>)
    requires |pieces| == 1 && !pieces[0].comma && WellFormed(pieces[0].command)
    ensures ParseCommands(Emit(pieces) + [CloseList]) == Some(CommandsOf(pieces))
    ensures Separated(pieces)
  {
    ParseStep(pieces[0].command, [CloseList]);
    assert Emit(pieces) == Tokens(pieces[0].command);
    assert CommandsOf(pieces) == [pieces[0].command];
  }

  lemma {:induction false} CommaStep(pieces: seq<Piece>)
    requires |pieces| > 1 && !pieces[0].comma && pieces[1].comma && WellFormed(pieces[0].command)
    ensures ParseCommands(Emit(pieces) + [CloseList])
            == match ParseCommands(Emit(Tail(pieces)) + [CloseList])
               case None => None
               case Some(rest) => Some([pieces[0].command] + rest)
  {
    var rest := Emit(Tail(pieces)) + [CloseList];
    var left := [Comma] + rest;
    EmitTail(pieces);
    Assoc(Tokens(pieces[0].command), [Comma] + Emit(Tail(pieces)), [CloseList]);
    Assoc([Comma], Emit(Tail(pieces)), [CloseList]);
    ParseStep(pieces[0].command, left);
    assert left[1..] == rest;
  }

  lemma {:induction false} MissingComma(pieces: seq<Piece>)
    requires |pieces| > 1 && !pieces[0].comma && !pieces[1].comma && WellFormed(pieces[0].command)
    ensures ParseCommands(Emit(pieces) + [CloseList]).None? && !Separated(pieces)
  {
    var left := Emit(pieces[1..]) + [CloseList];
    StartsUnseparated(pieces[1..]);
    ParseStep(pieces[0].command, left);
    NoLead(Tokens(pieces[0].command));
    Assoc(Tokens(pieces[0].command), Emit(pieces[1..]), [CloseList]);
  }

  lemma {:induction false} StartsUnseparated(pieces: seq<Piece>)
    requires pieces != [] && !pieces[0].comma
    ensures var left := Emit(pieces) + [CloseList];
      |left| > 1 && left[0] != Comma && left[0] != CloseList
  {
    FirstToken(pieces[0].command);
    NoLead(Tokens(pieces[0].command));
  }

  lemma {:induction false} FirstToken(command: Command)
    ensures |Tokens(command)| > 0 && !Tokens(command)[0].Comma?
    ensures !Tokens(command)[0].CloseList?
  {
  }

  lemma {:induction false} EmitAppend(pieces: seq<Piece>, p: Piece)
    ensures Emit(pieces + [p]) == Emit(pieces) + Lead(p) + Tokens(p.command)
  {
    if pieces == [] {
      assert (pieces + [p])[1..] == [];
    } else {
      assert (pieces + [p])[1..] == pieces[1..] + [p];
      EmitAppend(pieces[1..], p);
    }
  }

  lemma {:induction false} JoinAppend(entries: seq<Entry>, e: Entry)
    ensures Join(entries + [e]) == Join(entries) + (if entries == [] then [] else [Comma]) + [EntryToken(e)]
  {
    if |entries| > 0 {
      assert (entries + [e])[1..] == entries[1..] + [e];
      JoinAppend(entries[1..], e);
    }
  }
}
