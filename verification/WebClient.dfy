/** The message reader of `ILibWebClient`: `ILibWebClient_OnData` and `ILibWebClient_ProcessChunk`,
    as a function from a state and a window of unread bytes to the next state, and as the object
    whose fields the source updates. The window is buffer[*p_beginPointer..endPointer]; the receive
    loop always calls with *p_beginPointer == 0. */
module WebClient {
  import opened Options
  import opened Splitter
  import opened Numbers
  import opened PacketHeader
  import opened ReceiveLoop

  datatype ChunkFlag = STARTCHUNK | ENDCHUNK | DATACHUNK | FOOTERCHUNK

  /** `struct ILibWebClient_ChunkData`; buffer is the filled part buffer[0..offset]. */
  datatype Chunk = Chunk(flag: ChunkFlag, buffer: string, bytesLeft: int)

  /** How the OnResponse consumer treats the bytes it is offered: leave them until the done call, and
      then advance its begin pointer over them (`UpnpSessionReceiveSink`) or not even then
      (`UpnpSendEventSink`); or advance it over everything on every call. */
  datatype Mode = HoldUntilDone(takesAtDone: bool) | TakeAll

  /** A done call: the header passed to it, and the body as the consumer has it then. */
  datatype Response = Response(header: Option<Packet>, body: string)

  /** `struct ILibWebClientDataObject` and what its consumer has seen. In server mode the owner of the
      connection answers request number n inside the done call when answersAtOnce(n), otherwise later.
      faulted marks the states in which the source dereferences NULL or leaves its buffers. */
  datatype Client = Client(
    server: bool,
    requests: nat,
    finHeader: bool,
    chunked: bool,
    bytesLeft: int,
    headerLength: nat,
    chunk: Option<Chunk>,
    header: Option<Packet>,
    pause: bool,
    mode: Mode,
    answersAtOnce: nat -> bool,
    taken: string,
    responses: seq<Response>,
    faulted: bool)

  function FinishedResponseServer(c: Client): Client {
    c.(chunk := None, header := None, chunked := false, finHeader := false)
  }

  /** Answering a paused request: `ILibWebServer_RequestAnswered` ends in FinishedResponse_Server and
      Resume. */
  function Answer(c: Client): Client {
    FinishedResponseServer(c).(pause := false)
  }

  function FinishedResponse(c: Client): Client {
    if c.server then c
    else FinishedResponseServer(c).(requests := if c.requests > 0 then c.requests - 1 else 0)
  }

  /** The OnResponse call: the new state, and the consumer's begin pointer. */
  function Respond(c: Client, data: string, done: bool): (Client, nat) {
    var consumed := if c.mode.TakeAll? || (done && c.mode.takesAtDone) then |data| else 0;
    var body := if c.mode.TakeAll? then c.taken + data else data;
    if !done then (c.(taken := if c.mode.TakeAll? then body else c.taken), consumed)
    else
      var answered := c.(taken := "", responses := c.responses + [Response(c.header, body)]);
      if !c.server then (answered, consumed)
      else if c.answersAtOnce(|c.responses|) then (FinishedResponseServer(answered), consumed)
      else (answered.(pause := c.pause || c.header.Some?), consumed)
  }

  // ----- chunks

  /** The size on a chunk line: the field before the first ';', read in base 16 into an int. */
  function ChunkSize(line: string): int {
    ToInt(Strtol(Split(line, ";")[0], 16))
  }

  /** What stays of the chunk buffer after the consumer moved its begin pointer to bp, when i of its
      bytes were new; None when the source's memcpy has a negative count. */
  function Compact(buffer: string, i: nat, bp: nat): Option<string>
    requires i <= |buffer| && bp <= |buffer|
  {
    if bp == i then Some("")
    else if bp == 0 then Some(buffer)
    else if bp > i then None
    else Some((buffer[..bp] + buffer[..i - bp] + buffer[i..])[..|buffer| - bp])
  }

  function Fault(c: Client): (Client, nat) {
    (c.(faulted := true), 0)
  }

  function ProcessChunk(c: Client, w: string): (r: (Client, nat))
    ensures r.1 <= |w|
  {
    var chunk := if c.chunk.None? then Chunk(STARTCHUNK, "", 0) else c.chunk.value;
    match chunk.flag
    case STARTCHUNK =>
      var j := Find(w, CRLF);
      if j + 2 < |w| then
        var size := ChunkSize(w[..j]);
        if size < 0 then Fault(c)
        else
          var flag := if size == 0 then FOOTERCHUNK else DATACHUNK;
          (c.(chunk := Some(chunk.(flag := flag, bytesLeft := size))), j + 2)
      else (c.(chunk := Some(chunk)), 0)
    case ENDCHUNK =>
      if |w| >= 2 then (c.(chunk := Some(chunk.(flag := STARTCHUNK))), 2) else (c, 0)
    case DATACHUNK =>
      if chunk.bytesLeft < 0 then Fault(c)
      else
        var flag := if |w| >= chunk.bytesLeft then ENDCHUNK else DATACHUNK;
        var i := if |w| >= chunk.bytesLeft then chunk.bytesLeft else |w|;
        var buffer := chunk.buffer + w[..i];
        var (c1, bp) := Respond(c, buffer, false);
        (match Compact(buffer, i, bp)
         case None => Fault(c)
         case Some(kept) => (c1.(chunk := Some(Chunk(flag, kept, chunk.bytesLeft - i))), i))
    case FOOTERCHUNK =>
      if CRLF <= w then
        if c.server && c.answersAtOnce(|c.responses|) then Fault(c)
        else (FinishedResponse(Respond(c, chunk.buffer, true).0.(chunk := None)), 2)
      else (c, 0)
  }

  // ----- headers and bodies

  const HEADER_END := "\r\n\r\n"

  function Lower(c: char): char {
    if 'A' <= c <= 'Z' then c + ' ' else c
  }

  /** `length == strlen(b) && strncasecmp(a, b, length) == 0` */
  predicate SameIgnoringCase(a: string, b: string) {
    |a| == |b| && forall k :: 0 <= k < |a| ==> Lower(a[k]) == Lower(b[k])
  }

  /** What the header says of the body: chunked or not, and BytesLeft (-1 when no length is given). */
  datatype Framing = Framing(chunked: bool, bytesLeft: int)

  /** What one header field changes. */
  function ReadField(field: HeaderField, f: Framing): Framing {
    var f1 := if SameIgnoringCase(field.name, "transfer-encoding") && SameIgnoringCase(field.data, "chunked")
              then f.(chunked := true) else f;
    if SameIgnoringCase(field.name, "content-length") then f1.(bytesLeft := Atoi(field.data)) else f1
  }

  function Introspect(fields: seq<HeaderField>, f: Framing): Framing {
    if fields == [] then f else Introspect(fields[1..], ReadField(fields[0], f))
  }

  function FramingOf(p: Packet): Framing {
    Introspect(p.fields, Framing(false, -1))
  }

  /** The state once the header block, ending at i, is parsed and its fields are read. */
  function AtHeader(c: Client, p: Packet, i: nat): Client {
    var f := FramingOf(p);
    c.(finHeader := true, headerLength := i + 3, header := Some(p), chunked := c.chunked || f.chunked,
       bytesLeft := if c.server && f.bytesLeft == -1 then 0 else f.bytesLeft)
  }

  /** The rest of the header branch: body is what has arrived behind the header block. */
  function AfterHeader(c: Client, p: Packet, i: nat, body: string): (r: (Client, nat))
    ensures r.1 <= i + 4 + |body|
  {
    if c.bytesLeft == 0 then (FinishedResponse(Respond(c, "", true).0), i + 4)
    else if c.chunked then
      var (c2, zero) := ProcessChunk(c, body);
      if c2.header.None? then Fault(c)
      else (c2.(header := Some(ClonePacket(c2.header.value))), i + 4 + zero)
    else if c.bytesLeft < 0 then Fault(c)
    else if |body| >= c.bytesLeft then
      var (c2, zero) := Respond(c, body[..c.bytesLeft], true);
      (FinishedResponse(c2), i + 4 + if zero == 0 then c.bytesLeft else zero)
    else
      var (c2, zero) := Respond(c, body, false);
      (c2.(headerLength := 0, bytesLeft := c.bytesLeft - zero, header := Some(ClonePacket(p))), i + 4 + zero)
  }

  function OnHeader(c: Client, w: string): (r: (Client, nat))
    ensures r.1 <= |w|
  {
    var i := Find(w, HEADER_END);
    if i == |w| then (c, 0)
    else
      match Parse(w)
      case Parsed(p) => AfterHeader(AtHeader(c, p, i), p, i, w[i + 4..])
      case _ => Fault(c)
  }

  function OnSizedBody(c: Client, w: string): (r: (Client, nat))
    ensures r.1 <= |w|
  {
    if c.bytesLeft < 0 then Fault(c)
    else if |w| >= c.bytesLeft then
      if c.headerLength + c.bytesLeft > |w| then Fault(c)
      else (FinishedResponse(Respond(c, w[..c.bytesLeft], true).0), c.headerLength + c.bytesLeft)
    else
      var (c1, zero) := Respond(c, w, false);
      (c1.(bytesLeft := c.bytesLeft - zero), 0)
  }

  function OnDataStep(c: Client, w: string): (r: (Client, nat))
    ensures r.1 <= |w|
  {
    if c.faulted then (c, 0)
    else if !c.server && c.requests == 0 then (c, |w|)
    else if !c.finHeader then OnHeader(c, w)
    else if c.chunked then ProcessChunk(c, w)
    else OnSizedBody(c, w)
  }

  /** `ILibWebClient_OnData` as the receive loop's callback. */
  function OnData(c: Client, w: string): (r: Reply<Client>)
    ensures r.begin <= |w|
  {
    var (c1, begin) := OnDataStep(c, w);
    Reply(c1, begin, c1.pause)
  }

  /** A connection before its first byte. */
  function Fresh(server: bool, requests: nat, mode: Mode, answersAtOnce: nat -> bool): Client {
    Client(server, requests, false, false, 0, 0, None, None, false, mode, answersAtOnce, "", [], false)
  }

  // ----- the object

  class WebClientDataObject {
    const Server: bool
    const Consumer: Mode
    const AnswersAtOnce: nat -> bool
    /** The length of RequestQueue. */
    var Requests: nat
    var FinHeader: bool
    var Chunked: bool
    var BytesLeft: int
    var HeaderLength: nat
    var chunk: Option<Chunk>
    var header: Option<Packet>
    var PAUSE: bool
    var Faulted: bool
    /** What the consumer has taken of the message under way, and its done calls. */
    var Taken: string
    var Responses: seq<Response>

    ghost function View(): Client
      reads this
    {
      Client(Server, Requests, FinHeader, Chunked, BytesLeft, HeaderLength, chunk, header, PAUSE,
             Consumer, AnswersAtOnce, Taken, Responses, Faulted)
    }

    constructor (server: bool, requests: nat, consumer: Mode, answersAtOnce: nat -> bool)
      ensures View() == Fresh(server, requests, consumer, answersAtOnce)
    {
      Server, Consumer, AnswersAtOnce := server, consumer, answersAtOnce;
      Requests := requests;
      FinHeader, Chunked, PAUSE, Faulted := false, false, false, false;
      BytesLeft, HeaderLength := 0, 0;
      chunk, header := None, None;
      Taken, Responses := "", [];
    }

    method FinishedResponse_Server()
      modifies this
      ensures View() == FinishedResponseServer(old(View()))
    {
      chunk := None;
      Chunked := false;
      header := None;
      FinHeader := false;
    }

    method Resume()
      modifies this
      ensures View() == Answer(old(View()))
    {
      FinishedResponse_Server();
      PAUSE := false;
    }

    method Finished_Response()
      modifies this
      ensures View() == FinishedResponse(old(View()))
    {
      if Server {
        return;
      }
      FinishedResponse_Server();
      if Requests > 0 {
        Requests := Requests - 1;
      }
    }

    method OnResponse(data: string, done: bool) returns (bp: nat)
      modifies this
      ensures (View(), bp) == Respond(old(View()), data, done)
    {
      bp := 0;
      var body := data;
      if Consumer.TakeAll? {
        bp := |data|;
        body := Taken + data;
      } else if done && Consumer.takesAtDone {
        bp := |data|;
      }
      if !done {
        if Consumer.TakeAll? {
          Taken := body;
        }
        return;
      }
      var first := |Responses|;
      Taken := "";
      Responses := Responses + [Response(header, body)];
      if Server {
        if AnswersAtOnce(first) {
          FinishedResponse_Server();
        } else if header.Some? {
          PAUSE := true;
        }
      }
    }

    /** The object is in the state of the step, unless the step leaves what the source defines. */
    ghost predicate Matches(r: (Client, nat), begin: nat)
      reads this
    {
      if r.0.faulted then Faulted else View() == r.0 && begin == r.1
    }

    /** The STARTCHUNK scan: the index behind the first line end that has a byte after it, or |w|. */
    method ScanChunkLine(w: string) returns (i: nat)
      requires |w| >= 3
      ensures i == if Find(w, CRLF) + 2 < |w| then Find(w, CRLF) + 2 else |w|
    {
      i := 2;
      while i < |w|
        invariant 2 <= i <= |w|
        invariant forall k :: 0 <= k < i - 2 ==> !Occurs(w, CRLF, k)
      {
        CrlfAt(w, i - 2);
        if w[i - 2] == '\r' && w[i - 1] == '\n' {
          FindIs(w, CRLF, i - 2);
          return;
        }
        i := i + 1;
      }
    }

    method StartChunk(c: Chunk, w: string) returns (begin: nat)
      requires chunk == Some(c) && c.flag == STARTCHUNK
      modifies this
      ensures Matches(ProcessChunk(old(View()), w), begin)
    {
      begin := 0;
      if |w| < 3 {
        return;
      }
      var i := ScanChunkLine(w);
      if i < |w| {
        hide ChunkSize;
        var size := ChunkSize(w[..i - 2]);
        if size < 0 {
          Faulted := true;
          return;
        }
        chunk := Some(c.(flag := if size == 0 then FOOTERCHUNK else DATACHUNK, bytesLeft := size));
        begin := i;
      }
    }

    method DataChunk(c: Chunk, w: string) returns (begin: nat)
      requires chunk == Some(c) && c.flag == DATACHUNK
      modifies this
      ensures Matches(ProcessChunk(old(View()), w), begin)
    {
      begin := 0;
      if c.bytesLeft < 0 {
        Faulted := true;
        return;
      }
      var flag, i := DATACHUNK, |w|;
      if |w| >= c.bytesLeft {
        flag := ENDCHUNK;
        i := c.bytesLeft;
      }
      var buffer := c.buffer + w[..i];
      var bp := OnResponse(buffer, false);
      var kept := Compact(buffer, i, bp);
      if kept.None? {
        Faulted := true;
      } else {
        chunk := Some(Chunk(flag, kept.value, c.bytesLeft - i));
        begin := i;
      }
    }

    /** `ILibWebClient_ProcessChunk` */
    method Process_Chunk(w: string) returns (begin: nat)
      modifies this
      ensures Matches(ProcessChunk(old(View()), w), begin)
    {
      begin := 0;
      if chunk.None? {
        chunk := Some(Chunk(STARTCHUNK, "", 0));
      }
      var c := chunk.value;
      match c.flag {
        case STARTCHUNK =>
          ChunkIsCreated(old(View()), w);
          begin := StartChunk(c, w);
        case ENDCHUNK =>
          if |w| >= 2 {
            begin := 2;
            chunk := Some(c.(flag := STARTCHUNK));
          }
        case DATACHUNK =>
          begin := DataChunk(c, w);
        case FOOTERCHUNK =>
          if CRLF <= w {
            if Server && AnswersAtOnce(|Responses|) {
              Faulted := true;
              return;
            }
            var _ := OnResponse(c.buffer, true);
            chunk := None;
            Finished_Response();
            begin := 2;
          }
      }
    }

    /** The loop over the header fields. */
    method Introspection(p: Packet) returns (f: Framing)
      ensures f == FramingOf(p)
    {
      f := Framing(false, -1);
      var k := 0;
      while k < |p.fields|
        invariant k <= |p.fields|
        invariant Introspect(p.fields[k..], f) == FramingOf(p)
      {
        var field := p.fields[k];
        if SameIgnoringCase(field.name, "transfer-encoding") {
          if SameIgnoringCase(field.data, "chunked") {
            f := f.(chunked := true);
          }
        }
        if SameIgnoringCase(field.name, "content-length") {
          f := f.(bytesLeft := Atoi(field.data));
        }
        assert p.fields[k..][1..] == p.fields[k + 1..];
        k := k + 1;
      }
    }

    /** The scan for the end of the header block. */
    method FindHeaderEnd(w: string) returns (i: nat)
      ensures i == Find(w, HEADER_END)
    {
      i := 0;
      while i + 4 <= |w|
        invariant i <= |w|
        invariant forall k :: 0 <= k < i ==> !Occurs(w, HEADER_END, k)
      {
        HeaderEndAt(w, i);
        if w[i] == '\r' && w[i + 1] == '\n' && w[i + 2] == '\r' && w[i + 3] == '\n' {
          FindIs(w, HEADER_END, i);
          return;
        }
        i := i + 1;
      }
      i := |w|;
    }

    method EnterHeader(p: Packet, i: nat)
      modifies this
      ensures View() == AtHeader(old(View()), p, i)
    {
      var f := Introspection(p);
      hide FramingOf;
      FinHeader, HeaderLength, header := true, i + 3, Some(p);
      BytesLeft := f.bytesLeft;
      Chunked := Chunked || f.chunked;
      if Server && BytesLeft == -1 {
        BytesLeft := 0;
      }
    }

    method BodyStarts(p: Packet, i: nat, body: string) returns (begin: nat)
      modifies this
      ensures Matches(AfterHeader(old(View()), p, i, body), begin)
    {
      hide ProcessChunk, Respond;
      begin := 0;
      if BytesLeft == 0 {
        var _ := OnResponse("", true);
        Finished_Response();
        begin := i + 4;
      } else if Chunked {
        var zero := Process_Chunk(body);
        if header.None? {
          Faulted := true;
        } else {
          header := Some(ClonePacket(header.value));
          begin := i + 4 + zero;
        }
      } else if BytesLeft < 0 {
        Faulted := true;
      } else {
        begin := SizedBodyStarts(p, i, body);
      }
    }

    method SizedBodyStarts(p: Packet, i: nat, body: string) returns (begin: nat)
      requires BytesLeft > 0 && !Chunked
      modifies this
      ensures Matches(AfterHeader(old(View()), p, i, body), begin)
    {
      var bytesLeft: nat := BytesLeft;
      if |body| >= bytesLeft {
        var zero := OnResponse(body[..bytesLeft], true);
        Finished_Response();
        begin := i + 4 + if zero == 0 then bytesLeft else zero;
      } else {
        var zero := OnResponse(body, false);
        HeaderLength := 0;
        BytesLeft := bytesLeft - zero;
        header := Some(ClonePacket(p));
        begin := i + 4 + zero;
      }
    }

    method Header(w: string) returns (begin: nat)
      modifies this
      ensures Matches(OnHeader(old(View()), w), begin)
    {
      hide AfterHeader, AtHeader, Find, Parse;
      var i := FindHeaderEnd(w);
      if i == |w| {
        return 0;
      }
      var outcome := ParsePacketHeader(w, 0, |w|);
      assert w[0..|w|] == w;
      if outcome.Parsed? {
        EnterHeader(outcome.packet, i);
        begin := BodyStarts(outcome.packet, i, w[i + 4..]);
      } else {
        begin := 0;
        Faulted := true;
      }
    }

    method SizedBody(w: string) returns (begin: nat)
      modifies this
      ensures Matches(OnSizedBody(old(View()), w), begin)
    {
      begin := 0;
      if BytesLeft < 0 {
        Faulted := true;
      } else if |w| >= BytesLeft {
        if HeaderLength + BytesLeft > |w| {
          Faulted := true;
          return;
        }
        begin := HeaderLength + BytesLeft;
        var _ := OnResponse(w[..BytesLeft], true);
        Finished_Response();
      } else {
        var bytesLeft := BytesLeft;
        var zero := OnResponse(w, false);
        BytesLeft := bytesLeft - zero;
      }
    }

    /** `ILibWebClient_OnData` */
    method On_Data(w: string) returns (begin: nat)
      modifies this
      ensures Matches(OnDataStep(old(View()), w), begin)
    {
      if Faulted {
        begin := 0;
      } else if !Server && Requests == 0 {
        begin := |w|;
      } else if !FinHeader {
        begin := Header(w);
      } else if Chunked {
        begin := Process_Chunk(w);
      } else {
        begin := SizedBody(w);
      }
    }
  }

  /** A missing chunk state is the empty one. */
  lemma ChunkIsCreated(c: Client, w: string)
    ensures c.chunk.None? ==>
      ProcessChunk(c, w) == ProcessChunk(c.(chunk := Some(Chunk(STARTCHUNK, "", 0))), w) ||
      (ProcessChunk(c, w).0.faulted && ProcessChunk(c.(chunk := Some(Chunk(STARTCHUNK, "", 0))), w).0.faulted)
  {
  }

  lemma CrlfAt(w: string, i: nat)
    requires i + 2 <= |w|
    ensures Occurs(w, CRLF, i) <==> w[i] == '\r' && w[i + 1] == '\n'
  {
    assert w[i..][0] == w[i] && w[i..][1] == w[i + 1];
  }

  lemma HeaderEndAt(w: string, i: nat)
    requires i + 4 <= |w|
    ensures Occurs(w, HEADER_END, i) <==>
      w[i] == '\r' && w[i + 1] == '\n' && w[i + 2] == '\r' && w[i + 3] == '\n'
  {
    assert w[i..][0] == w[i] && w[i..][1] == w[i + 1] && w[i..][2] == w[i + 2] && w[i..][3] == w[i + 3];
  }
}
