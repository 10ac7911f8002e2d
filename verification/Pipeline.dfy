/** From the server's send calls to the client's done call: a streamed response, over any fragmentation
    of its bytes. */
module Pipeline {
  import opened Numbers
  import opened Options
  import opened Splitter
  import opened PacketHeader
  import opened ReceiveLoop
  import opened WebClient
  import opened MessageFraming
  import Grammar
  import SendQueue
  import WebServer
  import Sequences

  // ----- a streamed response as a message

  function Concat(buffers: seq<string>): string {
    if buffers == [] then "" else buffers[0] + Concat(buffers[1..])
  }

  /** What StreamBody puts on the wire for the buffers, the last call with done set. */
  function BodyBytes(buffers: seq<string>): string {
    if buffers == [] then WebServer.LAST_CHUNK
    else WebServer.StreamBytes(buffers[0], false) + BodyBytes(buffers[1..])
  }

  function Pieces(buffers: seq<string>): seq<Piece> {
    if buffers == [] then []
    else if buffers[0] == "" then Pieces(buffers[1..])
    else [Piece(PrintNat(|buffers[0]|, 16), buffers[0])] + Pieces(buffers[1..])
  }

  function Chunked(p: Packet): Packet {
    p.(fields := WebServer.ChunkIt(p.fields))
  }

  lemma {:induction false} PiecesOf(buffers: seq<string>)
    ensures WirePieces(Pieces(buffers)) + WebServer.LAST_CHUNK == BodyBytes(buffers)
    ensures MessageFraming.Data(Pieces(buffers)) == Concat(buffers)
  {
    hide PrintNat;
    if buffers != [] {
      var b, rest := buffers[0], buffers[1..];
      PiecesOf(rest);
      if b == "" {
        assert WebServer.StreamBytes(b, false) == "";
        assert "" + BodyBytes(rest) == BodyBytes(rest) && "" + Concat(rest) == Concat(rest);
      } else {
        OnePiece(Piece(PrintNat(|b|, 16), b), Pieces(rest), WebServer.LAST_CHUNK);
        assert WebServer.EncodeChunk(b) + "" == WebServer.EncodeChunk(b);
      }
    }
  }

  lemma OnePiece(p: Piece, more: seq<Piece>, x: string)
    ensures WirePieces([p] + more) + x == p.line + CRLF + p.data + CRLF + (WirePieces(more) + x)
    ensures MessageFraming.Data([p] + more) == p.data + MessageFraming.Data(more)
  {
    assert ([p] + more)[1..] == more;
    Sequences.Assoc(p.line + CRLF + p.data + CRLF, WirePieces(more), x);
  }

  /** A printed size is a chunk line that reads back as the size. */
  lemma PrintedChunkLine(n: nat)
    requires n <= INT_MAX
    ensures ChunkLine(PrintNat(n, 16), n)
  {
    var line := PrintNat(n, 16);
    PrintedDigits(n, 16);
    assert '\n' !in line && ';' !in line by {
      assert !IsDigit('\n', 16) && !IsDigit(';', 16);
    }
    StrtolOfPrinted(n, 16);
    FreeOfCrlf(line);
    CrlfIsUnbordered();
    FreeOfChar(line, ';');
    ToIntOfInt(n);
    hide PrintNat, AllDigits, Free, Unbordered, Strtol, ToInt;
    FindBeforeDelimiter(line, "", CRLF);
    assert line + (CRLF + "") == line + CRLF;
    SplitOfFree(line, ";");
  }

  lemma SplitOfFree(s: string, d: string)
    requires d != "" && Free(s, d)
    ensures Split(s, d) == [s]
  {
    SplitNone(s, d);
  }

  lemma {:induction false} PiecesAreWellFormed(buffers: seq<string>)
    requires forall b :: b in buffers ==> |b| <= INT_MAX
    ensures WellFormedPieces(Pieces(buffers))
  {
    if buffers != [] {
      PiecesAreWellFormed(buffers[1..]);
      PrintedChunkLine(|buffers[0]|);
      hide ChunkLine, PrintNat;
    }
  }

  // ----- any header that announces chunks

  /** The header block is read as q, and announces a chunked body to a client. */
  predicate Announced(block: string, q: Packet) {
    && EndsFirst(block, HEADER_END) && ParseLines(Split(block, CRLF)) == Parsed(q)
    && FramingOf(q).chunked && FramingOf(q).bytesLeft != 0 && |q.version| <= 3
  }

  function Streamed(block: string, buffers: seq<string>): Message {
    Message(block, Chunks(Pieces(buffers), "0"))
  }

  lemma StreamedAnnounces(block: string, q: Packet, buffers: seq<string>)
    requires Announced(block, q) && forall b :: b in buffers ==> |b| <= INT_MAX
    ensures Announces(false, Streamed(block, buffers))
    ensures MessageFraming.Header(Streamed(block, buffers)) == q
    ensures Text(Streamed(block, buffers).body) == Concat(buffers)
  {
    PiecesAreWellFormed(buffers);
    PrintedChunkLine(0);
    PiecesOf(buffers);
    assert PrintNat(0, 16) == "0";
    hide PrintNat, EndsFirst, ParseLines, Split, WellFormedPieces, ChunkLine, FramingOf, Pieces;
  }

  /** The bytes of the send calls are the message on the wire. */
  lemma WireOfStreamed(block: string, buffers: seq<string>)
    ensures Wire([Streamed(block, buffers)]) == block + HEADER_END + BodyBytes(buffers)
  {
    var m := Streamed(block, buffers);
    PiecesOf(buffers);
    assert WireBody(m.body) == BodyBytes(buffers) by {
      assert "0" + CRLF + CRLF == WebServer.LAST_CHUNK;
    }
    hide WireBody, BodyBytes;
    assert [m][1..] == [] && Wire([]) == "";
    assert WireBody(m.body) + "" == WireBody(m.body);
  }

  /** End to end. Behind every header block that announces chunks, for every sequence of StreamBody buffers,
      whatever they contain, and however the bytes of the send calls are fragmented on their way: the
      client's done call comes at most once, with the header as it is read and the concatenation of the
      buffers; and when the last byte has been read it has come, and the client has consumed exactly those
      bytes. */
  lemma StreamedBodyArrives(block: string, q: Packet, buffers: seq<string>, mode: Mode, answers: nat -> bool,
                            events: seq<Event>)
    requires Announced(block, q) && forall b :: b in buffers ==> |b| <= INT_MAX
    ensures var sent := block + HEADER_END + BodyBytes(buffers);
      var w := Run(OnData, Answer, World(Socket(Fresh(false, 1, mode, answers), "", 0, false), sent), events);
      var response := Response(Some(q), Concat(buffers));
      && (w.socket.user.responses == [] || w.socket.user.responses == [response])
      && !w.socket.pause
      && (w.incoming == "" ==> w.socket.user.responses == [response] && w.socket.buffer == "")
  {
    var m := Streamed(block, buffers);
    hide Run, Wire, Announces, Announced, BodyBytes, Streamed, Concat, Text, MessageFraming.Header;
    StreamedAnnounces(block, q, buffers);
    WireOfStreamed(block, buffers);
    assert m.body.Chunks? by { BodyIsChunks(block, buffers); }
    OneMessage(m, mode, answers, events);
  }

  lemma BodyIsChunks(block: string, buffers: seq<string>)
    ensures Streamed(block, buffers).body.Chunks?
  {
  }

  lemma OneMessage(m: Message, mode: Mode, answers: nat -> bool, events: seq<Event>)
    requires Announces(false, m) && m.body.Chunks?
    ensures var w := Run(OnData, Answer, Start([m], false, 1, mode, answers), events);
      && (w.socket.user.responses == [] || w.socket.user.responses == [ResponseTo(m)])
      && !w.socket.pause
      && (w.incoming == "" ==> w.socket.user.responses == [ResponseTo(m)] && w.socket.buffer == "")
  {
    assert Readable(false, mode, answers, [m]);
    assert Expected([m]) == [ResponseTo(m)];
    EveryFragmentation([m], false, 1, mode, answers, events);
    EveryMessageArrives([m], false, 1, mode, answers, events);
    hide Run, Start, Announces, ResponseTo, Expected, Readable;
    OnlyPrefixes(Run(OnData, Answer, Start([m], false, 1, mode, answers), events).socket.user.responses,
                 Expected([m]), ResponseTo(m));
  }

  lemma OnlyPrefixes(r: seq<Response>, e: seq<Response>, x: Response)
    requires e == [x]
    ensures r <= e ==> r == [] || r == [x]
  {
  }

  // ----- the header that StreamHeader prints

  predicate IsLength(f: HeaderField) {
    Grammar.Named(f.name, Grammar.CONTENT_LENGTH)
  }

  const CODING_FIELD := HeaderField("Transfer-Encoding", "chunked")

  lemma CodingIsSeen(fields: seq<HeaderField>, f: Framing)
    requires f.chunked || CODING_FIELD in fields
    ensures Introspect(fields, f).chunked
  {
    CodingField();
    hide Grammar.Named, Introspect;
    Grammar.CodingIsRead(fields, f);
  }

  lemma CodingField()
    ensures Grammar.Named(CODING_FIELD.name, Grammar.TRANSFER_ENCODING) && Grammar.Named(CODING_FIELD.data, "chunked")
    ensures !IsLength(CODING_FIELD)
  {
  }

  lemma SameLength(f: HeaderField)
    ensures IsLength(f) == SameIgnoringCase(f.name, "Content-Length")
  {
    Grammar.NamedIgnoresCase(f.name, Grammar.CONTENT_LENGTH, "Content-Length");
  }

  lemma {:induction false} ChunkItFields(fields: seq<HeaderField>)
    ensures CODING_FIELD in WebServer.ChunkIt(fields)
    ensures forall f :: f in WebServer.ChunkIt(fields) ==> f in fields || f == CODING_FIELD
  {
    hide SameIgnoringCase, Grammar.Named;
    if fields != [] {
      ChunkItFields(fields[1..]);
    }
  }

  /** No second Content-Length, which StreamHeader would leave in place. */
  predicate OneLength(fields: seq<HeaderField>) {
    forall i, j :: 0 <= i < j < |fields| ==> !(IsLength(fields[i]) && IsLength(fields[j]))
  }

  lemma {:induction false} NoLengthLeft(fields: seq<HeaderField>)
    requires OneLength(fields)
    ensures forall k :: 0 <= k < |WebServer.ChunkIt(fields)| ==> !IsLength(WebServer.ChunkIt(fields)[k])
  {
    CodingField();
    hide SameIgnoringCase, Grammar.Named;
    if fields != [] {
      SameLength(fields[0]);
      hide IsLength;
      var rest := fields[1..];
      if IsLength(fields[0]) {
        forall k | 0 <= k < |rest| ensures !IsLength(rest[k]) {
          assert rest[k] == fields[k + 1];
        }
      } else {
        NoLengthLeft(rest);
      }
    }
  }

  /** What StreamHeader is given for a response that is read back as chunked: tokens without separators, and
      no Content-Length of 0 that stays in the header. */
  predicate Streamable(p: Packet) {
    WellFormed(p) && |p.version| <= 3 && FramingOf(Heard(Chunked(p))).bytesLeft != 0
  }

  lemma ChunkedIsWellFormed(p: Packet)
    requires WellFormed(p)
    ensures WellFormed(Chunked(p))
  {
    ChunkItFields(p.fields);
    hide WebServer.ChunkIt;
  }

  lemma ChunkedIsHeard(p: Packet)
    ensures FramingOf(Heard(Chunked(p))).chunked
  {
    var fields := WebServer.ChunkIt(p.fields);
    ChunkItFields(p.fields);
    hide WebServer.ChunkIt, Trim, Introspect, FirstWord;
    var k :| 0 <= k < |fields| && fields[k] == CODING_FIELD;
    CodingIsHeard();
    assert HeardFields(fields)[k] == CODING_FIELD;
    CodingIsSeen(HeardFields(fields), Framing(false, -1));
  }

  lemma CodingIsHeard()
    ensures Trim(" " + "chunked") == "chunked"
  {
    TrimOfBlank("chunked");
  }

  /** At most one Content-Length is such a header. */
  lemma OneLengthIsStreamable(p: Packet)
    requires WellFormed(p) && |p.version| <= 3 && OneLength(p.fields)
    ensures Streamable(p) && FramingOf(Heard(Chunked(p))) == Framing(true, -1)
  {
    ChunkedIsHeard(p);
    NoLengthLeft(p.fields);
    hide WebServer.ChunkIt, Trim, WellFormed, FirstWord;
    Grammar.LengthStays(HeardFields(Chunked(p).fields), Framing(false, -1));
  }

  lemma PrintedIsAnnounced(p: Packet)
    requires Streamable(p)
    ensures Announced(Block(Chunked(p)), Heard(Chunked(p)))
  {
    ChunkedIsWellFormed(p);
    ChunkedIsHeard(p);
    assert Chunked(p).statusCode >= -1;
    hide Block, Split, WellFormed, Parse, Print, ParseLines, EndsFirst, FramingOf, Heard, Chunked;
    Grammar.LinesAreNotEmpty(Chunked(p));
    Grammar.BlockEndsFirst(Block(Chunked(p)));
    ParseOfPrint(Chunked(p), "");
    assert Heard(Chunked(p)).version == p.version by {
      VersionIsHeard(p);
    }
  }

  lemma VersionIsHeard(p: Packet)
    ensures Heard(Chunked(p)).version == p.version
  {
  }

  lemma PrintIsHead(p: Packet)
    requires p.statusCode >= -1
    ensures Print(p, "") == Block(p) + HEADER_END
  {
    hide Block, Print;
    PrintIsBlock(p, "");
    assert HEADER_END == CRLF + CRLF;
    Sequences.Assoc(Block(p), CRLF, CRLF);
    assert Block(p) + CRLF + CRLF + "" == Block(p) + CRLF + CRLF;
  }

  /** The end-to-end theorem for StreamHeader. */
  lemma StreamedResponseArrives(p: Packet, buffers: seq<string>, mode: Mode, answers: nat -> bool, events: seq<Event>)
    requires Streamable(p) && forall b :: b in buffers ==> |b| <= INT_MAX
    ensures var sent := Print(Chunked(p), "") + BodyBytes(buffers);
      var w := Run(OnData, Answer, World(Socket(Fresh(false, 1, mode, answers), "", 0, false), sent), events);
      var response := Response(Some(Heard(Chunked(p))), Concat(buffers));
      && (w.socket.user.responses == [] || w.socket.user.responses == [response])
      && !w.socket.pause
      && (w.incoming == "" ==> w.socket.user.responses == [response] && w.socket.buffer == "")
  {
    assert Chunked(p).statusCode >= -1;
    hide Run, Streamable, Announced, Print, BodyBytes, Concat, Chunked, Heard;
    PrintedIsAnnounced(p);
    PrintIsHead(Chunked(p));
    StreamedBodyArrives(Block(Chunked(p)), Heard(Chunked(p)), buffers, mode, answers, events);
  }

  // ----- the header that StreamHeader_Raw sends

  /** A header text as the callers write it: every line behind its line end. */
  function HeaderText(lines: seq<string>): string {
    if lines == [] then "" else CRLF + lines[0] + HeaderText(lines[1..])
  }

  predicate HeaderLine(line: string) {
    '\n' !in line && ':' in line
  }

  lemma {:induction false} HeaderLinesParse(lines: seq<string>)
    requires forall line :: line in lines ==> HeaderLine(line)
    ensures ParseFields(lines).Some?
  {
    if lines != [] {
      assert HeaderLine(lines[0]) by {
        assert lines[0] in lines;
      }
      ColonIsFound(lines[0]);
      hide ParseField;
      HeaderLinesParse(lines[1..]);
    }
  }

  lemma ColonIsFound(line: string)
    requires ':' in line
    ensures ParseField(line).Some?
  {
    var k :| 0 <= k < |line| && line[k] == ':';
    assert line[k..][0] == ':';
    assert Occurs(line, ":", k);
  }

  /** What the reader makes of a raw header. */
  function RawHeard(code: nat, data: string, lines: seq<string>): Packet
    requires ParseFields(lines).Some?
  {
    Packet(code, FirstWord(data), "", "", "1.1", [CODING_FIELD] + ParseFields(lines).value)
  }

  lemma {:induction false} HeaderTextIsJoin(start: string, lines: seq<string>)
    ensures start + HeaderText(lines) == Join([start] + lines, CRLF)
    decreases |lines|
  {
    if lines == [] {
      assert [start] + lines == [start];
    } else {
      HeaderTextIsJoin(lines[0], lines[1..]);
      assert [lines[0]] + lines[1..] == lines;
      JoinCons(start, lines, CRLF);
      hide Join;
      Sequences.Assoc(start, CRLF + lines[0], HeaderText(lines[1..]));
      Sequences.Assoc(start + CRLF, lines[0], HeaderText(lines[1..]));
      Sequences.Assoc(start, CRLF, lines[0]);
    }
  }

  const CODING_LINE := "Transfer-Encoding: chunked"

  lemma RawLines(code: nat, data: string, lines: seq<string>)
    requires '\n' !in data && forall line :: line in lines ==> HeaderLine(line)
    ensures var block := WebServer.RawHead(code, data, Some(HeaderText(lines)), true);
      Split(block, CRLF) == [WebServer.StatusText(code, data), CODING_LINE] + lines
  {
    var start, text := WebServer.StatusText(code, data), HeaderText(lines);
    var all := [start, CODING_LINE] + lines;
    RawLinesAreFree(code, data, lines);
    CrlfIsUnbordered();
    assert WebServer.RawHead(code, data, Some(text), true) == start + WebServer.CODING + text;
    hide WebServer.StatusText, WebServer.RawHead, Split, Unbordered, Join, HeaderText, Free;
    SplitOfJoin(all, CRLF);
    RawHeadIsJoin(start, lines);
  }

  lemma RawLinesAreFree(code: nat, data: string, lines: seq<string>)
    requires '\n' !in data && forall line :: line in lines ==> HeaderLine(line)
    ensures forall line :: line in [WebServer.StatusText(code, data), CODING_LINE] + lines ==> Free(line, CRLF)
  {
    var all := [WebServer.StatusText(code, data), CODING_LINE] + lines;
    DecimalHasNoBlank(code);
    assert '\n' !in WebServer.StatusText(code, data) && '\n' !in CODING_LINE;
    hide WebServer.StatusText, Free;
    forall line | line in all ensures Free(line, CRLF) {
      FreeOfCrlf(line);
    }
  }

  lemma RawHeadIsJoin(start: string, lines: seq<string>)
    ensures start + WebServer.CODING + HeaderText(lines) == Join([start, CODING_LINE] + lines, CRLF)
  {
    var all := [start, CODING_LINE] + lines;
    hide Join, HeaderText;
    HeaderTextIsJoin(CODING_LINE, lines);
    assert [CODING_LINE] + lines == all[1..];
    assert [start] + all[1..] == all;
    JoinCons(start, all[1..], CRLF);
    assert WebServer.CODING == CRLF + CODING_LINE;
    Sequences.Assoc(start, CRLF, CODING_LINE);
    Sequences.Assoc(start + CRLF, CODING_LINE, HeaderText(lines));
  }

  lemma RawStartLine(code: nat, data: string)
    requires code <= INT_MAX && '\n' !in data
    ensures ParseStartLine(WebServer.StatusText(code, data)) == Parsed(Packet(code, FirstWord(data), "", "", "1.1", []))
  {
    var p := Packet(code, data, "", "", "1.1", []);
    ParseOfStatusLine(p);
    StatusLineIs(p);
    assert "HTTP/" + "1.1" + " " == "HTTP/1.1 ";
    hide ParseStartLine, StartLine, FirstWord, PrintNat;
  }

  lemma RawFields(lines: seq<string>)
    requires forall line :: line in lines ==> HeaderLine(line)
    ensures ParseFields(lines).Some?
    ensures ParseFields([CODING_LINE] + lines) == Some([CODING_FIELD] + ParseFields(lines).value)
  {
    HeaderLinesParse(lines);
    CodingLineParses();
    FieldsMore(CODING_LINE, CODING_FIELD, lines);
  }

  lemma FieldsMore(line: string, f: HeaderField, rest: seq<string>)
    requires line != "" && ParseField(line) == Some(f) && ParseFields(rest).Some?
    ensures ParseFields([line] + rest) == Some([f] + ParseFields(rest).value)
  {
    hide ParseField;
    assert ([line] + rest)[1..] == rest;
  }

  lemma CodingLineParses()
    ensures ParseField(CODING_LINE) == Some(CODING_FIELD)
  {
    hide ParseField, Trim;
    assert FieldLine(CODING_FIELD) == CODING_LINE;
    ParseOfFieldLine(CODING_FIELD);
    CodingIsHeard();
  }

  /** A raw header of a status line and header lines, with whatever values, announces chunks, unless its own
      last Content-Length says 0. */
  lemma RawIsAnnounced(code: nat, data: string, lines: seq<string>)
    requires code <= INT_MAX && '\n' !in data && forall line :: line in lines ==> HeaderLine(line)
    requires ParseFields(lines).Some? && FramingOf(RawHeard(code, data, lines)).bytesLeft != 0
    ensures Announced(WebServer.RawHead(code, data, Some(HeaderText(lines)), true), RawHeard(code, data, lines))
  {
    hide Split, EndsFirst, ParseLines, WebServer.RawHead, ParseFields, Introspect, HeaderLine, FirstWord;
    RawParses(code, data, lines);
    RawLinesAreNotEmpty(code, data, lines);
    Grammar.BlockEndsFirst(WebServer.RawHead(code, data, Some(HeaderText(lines)), true));
    CodingIsSeen([CODING_FIELD] + ParseFields(lines).value, Framing(false, -1));
  }

  /** The end-to-end theorem for StreamHeader_Raw. */
  lemma RawResponseArrives(code: nat, data: string, lines: seq<string>, buffers: seq<string>, mode: Mode,
                           answers: nat -> bool, events: seq<Event>)
    requires code <= INT_MAX && '\n' !in data && forall line :: line in lines ==> HeaderLine(line)
    requires ParseFields(lines).Some? && FramingOf(RawHeard(code, data, lines)).bytesLeft != 0
    requires forall b :: b in buffers ==> |b| <= INT_MAX
    ensures var head := WebServer.RawHead(code, data, Some(HeaderText(lines)), true);
      var sent := head + HEADER_END + BodyBytes(buffers);
      var w := Run(OnData, Answer, World(Socket(Fresh(false, 1, mode, answers), "", 0, false), sent), events);
      var response := Response(Some(RawHeard(code, data, lines)), Concat(buffers));
      && (w.socket.user.responses == [] || w.socket.user.responses == [response])
      && !w.socket.pause
      && (w.incoming == "" ==> w.socket.user.responses == [response] && w.socket.buffer == "")
  {
    hide Run, Announced, BodyBytes, Concat, RawHeard, WebServer.RawHead, HeaderLine, ParseFields, FramingOf;
    RawIsAnnounced(code, data, lines);
    var head := WebServer.RawHead(code, data, Some(HeaderText(lines)), true);
    StreamedBodyArrives(head, RawHeard(code, data, lines), buffers, mode, answers, events);
  }

  lemma RawParses(code: nat, data: string, lines: seq<string>)
    requires code <= INT_MAX && '\n' !in data && forall line :: line in lines ==> HeaderLine(line)
    requires ParseFields(lines).Some?
    ensures ParseLines(Split(WebServer.RawHead(code, data, Some(HeaderText(lines)), true), CRLF))
      == Parsed(RawHeard(code, data, lines))
  {
    var start := WebServer.StatusText(code, data);
    hide Split, FirstWord, WebServer.RawHead, WebServer.StatusText, ParseStartLine, ParseFields, HeaderLine;
    RawLines(code, data, lines);
    RawStartLine(code, data);
    RawFields(lines);
    TailOfTwo(start, CODING_LINE, lines);
  }

  lemma TailOfTwo(a: string, b: string, rest: seq<string>)
    ensures ([a, b] + rest)[0] == a && ([a, b] + rest)[1..] == [b] + rest
  {
  }

  lemma RawLinesAreNotEmpty(code: nat, data: string, lines: seq<string>)
    requires '\n' !in data && forall line :: line in lines ==> HeaderLine(line)
    ensures "" !in Split(WebServer.RawHead(code, data, Some(HeaderText(lines)), true), CRLF)
  {
    RawLines(code, data, lines);
    assert WebServer.StatusText(code, data) != "" && CODING_LINE != "" && !HeaderLine("");
    hide Split, WebServer.RawHead, WebServer.StatusText, HeaderLine;
  }

  // ----- the same on the objects

  lemma BodyBytesStep(before: string, buffers: seq<string>, k: nat)
    requires k < |buffers|
    ensures before + BodyBytes(buffers[k..]) ==
      if k + 1 == |buffers| then before + WebServer.StreamBytes(buffers[k], true)
      else before + WebServer.StreamBytes(buffers[k], false) + BodyBytes(buffers[k + 1..])
  {
    var b, rest := buffers[k], buffers[k + 1..];
    assert buffers[k..][0] == b && buffers[k..][1..] == rest;
    var x := if b != "" then WebServer.EncodeChunk(b) else "";
    hide WebServer.EncodeChunk;
    assert x + "" == x;
    Sequences.Assoc(before, WebServer.StreamBytes(b, false), BodyBytes(rest));
  }

  /** One StreamBody call, perhaps behind a writable notification. */
  method StreamOne(session: WebServer.Session, buffer: string, last: bool) returns (r: int)
    requires session.Valid() && session.phase == WebServer.Received && !session.Http10() && |buffer| <= INT_MAX
    modifies session, session.socket, session.socket.Nodes
    ensures session.Valid() && session.Http10() == old(session.Http10())
    ensures forall i :: 0 <= i < |session.socket.Nodes| ==>
      session.socket.Nodes[i] in old(session.socket.Nodes) || fresh(session.socket.Nodes[i])
    ensures Delivers(session, r, old(session.AnswerLog),
                     old(session.socket.Accepted) + WebServer.StreamBytes(buffer, last), last)
    ensures old(session.Drained()) ==> session.Drained()
  {
    hide WebServer.StreamBytes, WebServer.Session.Flags, WebServer.Session.Drained;
    r := 0;
    if * {
      if session.socket.PendingSend_Head != null {
        r := session.Writable(0);
      }
    }
    if r != SendQueue.SEND_ON_CLOSED_SOCKET_ERROR {
      r := session.StreamBody(buffer, last);
    }
  }

  /** What is known behind a send of a response: unless the connection has failed, these bytes have been
      accepted; the response is answered behind its last part only, and then all of it is on the wire. */
  ghost predicate Delivers(session: WebServer.Session, r: int, log: seq<nat>, accepted: string, last: bool)
    reads session, session.socket
  {
    && (r == SendQueue.SEND_ON_CLOSED_SOCKET_ERROR ==> session.AnswerLog == log)
    && (r != SendQueue.SEND_ON_CLOSED_SOCKET_ERROR ==> session.socket.Accepted == accepted)
    && (r != SendQueue.SEND_ON_CLOSED_SOCKET_ERROR ==>
          if session.AnswerLog != log then
            && last && session.socket.Wire == accepted
            && (session.phase == WebServer.Idle || r == WebServer.SEND_RESULTED_IN_DISCONNECT)
          else
            && r != WebServer.SEND_RESULTED_IN_DISCONNECT
            && session.phase == if last then WebServer.Answering else WebServer.Received)
  }

  /** The StreamBody calls of a response. */
  method StreamAll(session: WebServer.Session, buffers: seq<string>) returns (r: int)
    requires session.Valid() && session.phase == WebServer.Received && !session.Http10()
    requires buffers != [] && forall b :: b in buffers ==> |b| <= INT_MAX
    modifies session, session.socket, session.socket.Nodes
    ensures session.Valid()
    ensures forall i :: 0 <= i < |session.socket.Nodes| ==>
      session.socket.Nodes[i] in old(session.socket.Nodes) || fresh(session.socket.Nodes[i])
    ensures Delivers(session, r, old(session.AnswerLog), old(session.socket.Accepted) + BodyBytes(buffers), true)
    ensures old(session.Drained()) ==> session.Drained()
  {
    hide BodyBytes, WebServer.StreamBytes;
    hide WebServer.Session.Drained, WebServer.Session.Flags, WebServer.Session.Valid;
    r := 0;
    var k := 0;
    assert buffers[0..] == buffers;
    while k < |buffers|
      invariant k <= |buffers| && session.Valid() && !session.Http10()
      invariant forall i :: 0 <= i < |session.socket.Nodes| ==>
        session.socket.Nodes[i] in old(session.socket.Nodes) || fresh(session.socket.Nodes[i])
      invariant k < |buffers| ==>
        && session.phase == WebServer.Received && session.AnswerLog == old(session.AnswerLog)
        && session.socket.Accepted + BodyBytes(buffers[k..]) == old(session.socket.Accepted) + BodyBytes(buffers)
      invariant k == |buffers| ==>
        Delivers(session, r, old(session.AnswerLog), old(session.socket.Accepted) + BodyBytes(buffers), true)
      invariant old(session.Drained()) ==> session.Drained()
    {
      BodyBytesStep(session.socket.Accepted, buffers, k);
      r := StreamOne(session, buffers[k], k + 1 == |buffers|);
      if r == SendQueue.SEND_ON_CLOSED_SOCKET_ERROR {
        return;
      }
      k := k + 1;
    }
  }

  /** The two ways to send the header of a streamed response. */
  datatype Head = Printed(packet: Packet) | Raw(code: nat, data: string, headers: Option<string>)

  /** What the calls demand: codes and versions that fit the printer's buffer, and no empty header text. */
  predicate Sendable(h: Head) {
    match h
    case Printed(p) => -1 <= p.statusCode <= 999 && (p.statusCode == -1 ==> |p.version| <= 3)
    case Raw(_, _, headers) => headers.Some? ==> headers.value != ""
  }

  /** The header block that goes on the wire, without its blank line. */
  function HeadBlock(h: Head): string
    requires Sendable(h)
  {
    match h
    case Printed(p) => Block(Chunked(p))
    case Raw(code, data, headers) => WebServer.RawHead(code, data, headers, true)
  }

  method StreamHead(session: WebServer.Session, h: Head) returns (r: int)
    requires session.Valid() && session.phase == WebServer.Received && !session.Http10() && Sendable(h)
    modifies session, session.socket, session.socket.Nodes
    ensures session.Valid() && session.AnswerLog == old(session.AnswerLog) && session.header == old(session.header)
    ensures forall i :: 0 <= i < |session.socket.Nodes| ==>
      session.socket.Nodes[i] in old(session.socket.Nodes) || fresh(session.socket.Nodes[i])
    ensures r != SendQueue.SEND_ON_CLOSED_SOCKET_ERROR ==>
      && session.phase == WebServer.Received
      && session.socket.Accepted == old(session.socket.Accepted) + (HeadBlock(h) + HEADER_END)
  {
    hide Print, Block, WebServer.RawHead, WebServer.Session.Flags, WebServer.Session.Valid;
    match h {
      case Printed(p) =>
        PrintIsHead(Chunked(p));
        r := session.StreamHeader(p);
      case Raw(code, data, headers) =>
        r := session.StreamHeaderRaw(code, data, headers);
    }
  }

  /** The server's calls for one streamed response: header, buffers, and the writable notifications in between
      and at the end. It is answered unless the connection fails, and then all of it is on the wire, also when
      the answer closes the connection. */
  method Stream(session: WebServer.Session, h: Head, buffers: seq<string>) returns (answered: bool)
    requires session.Valid() && session.phase == WebServer.Received && !session.Http10()
    requires session.socket.Accepted == ""
    requires Sendable(h) && buffers != [] && forall b :: b in buffers ==> |b| <= INT_MAX
    modifies session, session.socket, session.socket.Nodes
    ensures session.Valid()
    ensures answered <==> session.AnswerLog != old(session.AnswerLog)
    ensures answered ==> session.socket.Wire == HeadBlock(h) + HEADER_END + BodyBytes(buffers)
    ensures old(session.Drained()) ==> session.Drained()
  {
    hide HeadBlock, Sendable, BodyBytes;
    hide WebServer.Session.Flags, WebServer.Session.Valid;
    var r := StreamHead(session, h);
    if r == SendQueue.SEND_ON_CLOSED_SOCKET_ERROR {
      return false;
    }
    assert session.socket.Accepted == HeadBlock(h) + HEADER_END;
    hide WebServer.Session.Drained;
    r := StreamAll(session, buffers);
    if r == SendQueue.SEND_ON_CLOSED_SOCKET_ERROR {
      return false;
    }
    answered := Finish(session, r, old(session.AnswerLog), HeadBlock(h) + HEADER_END + BodyBytes(buffers));
  }

  /** The last writable notification, when something is still queued. */
  method Finish(session: WebServer.Session, status: int, ghost log: seq<nat>, ghost accepted: string)
    returns (answered: bool)
    requires session.Valid() && status != SendQueue.SEND_ON_CLOSED_SOCKET_ERROR
    requires Delivers(session, status, log, accepted, true)
    modifies session, session.socket, session.socket.Nodes
    ensures session.Valid()
    ensures answered <==> session.AnswerLog != log
    ensures answered ==> session.socket.Wire == accepted
    ensures old(session.Drained()) ==> session.Drained()
  {
    answered := true;
    if status != WebServer.SEND_RESULTED_IN_DISCONNECT && session.socket.PendingSend_Head != null {
      var r := session.Writable(0);
      answered := r != SendQueue.SEND_ON_CLOSED_SOCKET_ERROR;
    }
  }

  /** The client's reads of everything the peer sends, as a run of the receive loop. */
  method ReadAll(client: AsyncSocket<Client>, sent: string) returns (ghost events: seq<Event>)
    requires client.Valid() && client.onData == OnData
    modifies client, client.buffer
    ensures client.Valid()
    ensures var w := Run(OnData, Answer, World(old(client.View()), sent), events);
      w.socket == client.View() && (client.PAUSE || w.incoming == "")
  {
    ghost var start := World(client.View(), sent);
    var rest := sent;
    events := [];
    while rest != "" && !client.PAUSE
      invariant client.Valid() && client.onData == OnData
      invariant client.buffer == old(client.buffer) || fresh(client.buffer)
      invariant Run(OnData, Answer, start, events) == World(client.View(), rest)
      decreases |rest|, !client.PAUSE
    {
      ghost var before := client.View();
      var taken := client.ProcessAsyncSocket(rest);
      ghost var e := Read(if taken == 0 then 1 else taken);
      RunThen(OnData, Answer, start, events, e);
      hide Run, Redeliver, OnData, Receive;
      assert Step(OnData, Answer, World(before, rest), e) == World(client.View(), rest[taken..]);
      events := events + [e];
      rest := rest[taken..];
    }
  }

  /** A streamed response from the server's calls to the client's done call, over a kernel that takes and
      delivers the bytes in parts of its own choice: what was answered has arrived, with the header as it is
      read, whether or not the request asked to close the connection. */
  method Transfer(request: Packet, h: Head, buffers: seq<string>, mode: Mode, ghost q: Packet)
    returns (answered: bool, responses: seq<Response>)
    requires Sendable(h) && buffers != [] && forall b :: b in buffers ==> |b| <= INT_MAX
    requires request.version != "1.0"
    ensures answered && Announced(HeadBlock(h), q) ==> responses == [Response(Some(q), Concat(buffers))]
  {
    hide Sendable, HeadBlock, Announced, BodyBytes;
    var socket := new SendQueue.AsyncSocketModule.UseThisSocket();
    var session := new WebServer.Session(socket, request);
    session.OnResponse(request, true);
    answered := Stream(session, h, buffers);
    responses := [];
    if answered {
      var later := (n: nat) => false;
      var client := new AsyncSocket<Client>.UseThisSocket(OnData, Fresh(false, 1, mode, later), 2048);
      ghost var events := ReadAll(client, socket.Wire);
      if Announced(HeadBlock(h), q) {
        StreamedBodyArrives(HeadBlock(h), q, buffers, mode, later, events);
      }
      responses := client.user.responses;
    }
  }
}
