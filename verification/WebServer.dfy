/** A session of `ILibWebServer`: the Reserved flags, the sends of a response, and
    `ILibWebServer_RequestAnswered`. */
module WebServer {
  import Grammar
  import opened Numbers
  import opened Options
  import opened PacketHeader
  import opened SendQueue
  import WebClient
  import Sequences

  const SEND_RESULTED_IN_DISCONNECT := -2

  // ----- what the sends put on the wire

  /** `sprintf(hex, "%X\r\n", bufferSize)`, the buffer, and a line end. */
  function EncodeChunk(buffer: string): string
    requires buffer != ""
  {
    PrintNat(|buffer|, 16) + CRLF + buffer + CRLF
  }

  const LAST_CHUNK := "0\r\n\r\n"

  /** What one StreamBody call sends on HTTP/1.1. */
  function StreamBytes(buffer: string, done: bool): string {
    (if buffer != "" then EncodeChunk(buffer) else "") + (if done then LAST_CHUNK else "")
  }

  /** The hex buffer of 16 bytes holds any chunk line and its NUL. */
  lemma ChunkLineFits(buffer: string)
    requires |buffer| <= INT_MAX
    ensures |PrintNat(|buffer|, 16) + CRLF| < 16
  {
    assert Power(16, 8) == 0x1_0000_0000 by {
      assert Power(16, 4) == 0x1_0000;
      assert Power(16, 8) == 16 * (16 * (16 * (16 * Power(16, 4))));
    }
    PrintedLength(|buffer|, 16, 8);
  }

  /** StreamHeader's replacement: the first Content-Length becomes Transfer-Encoding: chunked, or that
      field is appended. */
  function ChunkIt(fields: seq<HeaderField>): seq<HeaderField> {
    if fields == [] then [HeaderField("Transfer-Encoding", "chunked")]
    else if WebClient.SameIgnoringCase(fields[0].name, "Content-Length") then
      [HeaderField("Transfer-Encoding", "chunked")] + fields[1..]
    else [fields[0]] + ChunkIt(fields[1..])
  }

  /** What StreamHeader_Raw sends in front of the blank line; the header text brings its own line ends. */
  function RawHead(code: nat, data: string, headers: Option<string>, chunked: bool): string {
    StatusText(code, data) + (if chunked then CODING else "") + headers.GetOr("")
  }

  const CODING := "\r\nTransfer-Encoding: chunked"

  function StatusText(code: nat, data: string): string {
    "HTTP/1.1 " + PrintNat(code, 10) + " " + data
  }

  /** The status line fits its buffer of 20 bytes and the status text for codes of up to nine digits. */
  lemma StatusTextFits(code: nat, data: string)
    requires code < 1_000_000_000
    ensures |StatusText(code, data)| < 20 + |data|
  {
    assert Power(10, 9) == 1_000_000_000 by {
      assert Power(10, 4) == 10_000;
    }
    PrintedLength(code, 10, 9);
  }

  // ----- the session

  /** Where the session is in the life of a request. Its owner keeps to the phases: it answers a
      request only once that has been received, and with one final send. Of a session that is Over
      (closed, failed, or ended outside these rules) nothing is claimed. */
  datatype Phase = Idle | Receiving | Received | Answering | Over

  class Session {
    const socket: AsyncSocketModule
    /** Request Answered Flag (set by send), Request Made Flag, Close Override Flag, RequestAnswered
        Method Called. */
    var Reserved4: bool
    var Reserved5: bool
    var Reserved6: bool
    var Reserved8: bool
    /** The header of the request being read or answered. */
    var header: Packet

    ghost var phase: Phase
    ghost var Requests: nat
    /** How many bytes were still queued at each run of RequestAnswered past its guard. */
    ghost var AnswerLog: seq<nat>

    /** A request that has begun and is not answered. */
    ghost predicate Pending()
      reads this
    {
      phase == Receiving || phase == Received || phase == Answering
    }

    ghost predicate Flags()
      reads this, socket
    {
      match phase
      case Idle => socket.Nodes == [] && (Requests > 0 || Reserved5 ==> Reserved4 && Reserved5 && Reserved8)
      case Receiving => !Reserved4 && Reserved5 && !Reserved8
      case Received => !Reserved4 && Reserved5 && !Reserved8
      case Answering => Reserved4 && Reserved5 && !Reserved8 && socket.Nodes != []
      case Over => true
    }

    /** Every request that is no longer pending has been answered exactly once. */
    ghost predicate Valid()
      reads this, socket, socket.Nodes
    {
      && socket.Valid()
      && (phase != Over ==> socket.Open && !socket.Failed && Flags())
      && (phase != Over ==> Requests == |AnswerLog| + if Pending() then 1 else 0)
    }

    /** Every answer was given with an empty queue. */
    ghost predicate Drained()
      reads this
    {
      forall k :: 0 <= k < |AnswerLog| ==> AnswerLog[k] == 0
    }

    constructor (socket: AsyncSocketModule, header: Packet)
      requires socket.Valid() && socket.Open && !socket.Failed && socket.Nodes == []
      ensures Valid() && Drained() && phase == Idle && Requests == 0 && this.socket == socket
      ensures this.header == header && !Reserved6
    {
      this.socket := socket;
      this.header := header;
      Reserved4, Reserved5, Reserved6, Reserved8 := false, false, false, false;
      phase, Requests, AnswerLog := Idle, 0, [];
    }

    predicate Http10()
      reads this
    {
      header.version == "1.0"
    }

    /** The connection survives the answer: not overridden, and no Connection token against it. */
    ghost predicate KeepsAlive()
      reads this
    {
      && !Reserved6
      && if Http10() then HasConnection(header.fields, "KEEP-ALIVE") else !HasConnection(header.fields, "CLOSE")
    }

    /** In the words of RFC 7230, section 6.3: HTTP/1.0 needs the token keep-alive, later versions must not
        have the token close, and a body of unknown length closes in any case. */
    lemma KeepsAliveMeans()
      ensures KeepsAlive() <==>
        && !Reserved6
        && if header.version == "1.0" then Says(header.fields, "keep-alive") else !Says(header.fields, "close")
    {
      ConnectionMeans(header.fields, "KEEP-ALIVE", "keep-alive");
      ConnectionMeans(header.fields, "CLOSE", "close");
    }

    method Persistent() returns (r: bool)
      ensures r == KeepsAlive()
      ensures r <==>
        && !Reserved6
        && if header.version == "1.0" then Says(header.fields, "keep-alive") else !Says(header.fields, "close")
    {
      KeepsAliveMeans();
      hide Says;
      if Reserved6 {
        return false;
      }
      var token := if Http10() then "KEEP-ALIVE" else "CLOSE";
      var k := 0;
      while k < |header.fields|
        invariant k <= |header.fields|
        invariant forall j :: 0 <= j < k ==> !IsConnection(header.fields[j], token)
      {
        var f := header.fields[k];
        if WebClient.SameIgnoringCase(f.name, "CONNECTION") {
          if WebClient.SameIgnoringCase(f.data, token) {
            assert IsConnection(f, token);
            return Http10();
          }
        }
        k := k + 1;
      }
      return !Http10();
    }

    /** `ILibWebServer_RequestAnswered`: past its guard it is the answer of the pending request. */
    method RequestAnswered() returns (r: int)
      requires socket.Valid() && socket.Open && !socket.Failed && phase != Over
      requires Reserved5 && Requests == |AnswerLog| + if Pending() then 1 else 0
      requires Reserved8 ==> Reserved4 && phase == Idle && socket.Nodes == []
      requires !Reserved8 ==> Pending()
      modifies this`Reserved8, this`phase, this`AnswerLog, socket
      ensures Valid() && Requests == old(Requests)
      ensures socket.Accepted == old(socket.Accepted) && socket.Wire == old(socket.Wire)
      ensures old(Reserved8) ==> r == 0 && phase == Idle && AnswerLog == old(AnswerLog) && unchanged(socket)
      ensures !old(Reserved8) ==>
        && AnswerLog == old(AnswerLog) + [old(|Unsent(socket.Nodes)|)]
        && r == (if old(KeepsAlive()) then 0 else SEND_RESULTED_IN_DISCONNECT)
        && (r == 0 ==> unchanged(socket))
        && phase == (if r == 0 && Reserved4 && socket.Nodes == [] then Idle else Over)
      ensures socket.Nodes == old(socket.Nodes) || socket.Nodes == []
    {
      if Reserved8 {
        return 0;
      }
      Reserved8 := true;
      AnswerLog := AnswerLog + [|Unsent(socket.Nodes)|];
      var persistent := Persistent();
      if !persistent {
        phase := Over;
        socket.Disconnect();
        r := SEND_RESULTED_IN_DISCONNECT;
      } else {
        phase := if Reserved4 && socket.Nodes == [] then Idle else Over;
        r := 0;
      }
    }

    /** The flag part of `ILibWebServer_OnResponse`: the first data of a request resets the flags. */
    method OnResponse(header: Packet, done: bool)
      requires Valid() && (phase == Idle || phase == Receiving)
      modifies this
      ensures Valid() && phase == (if done then Received else Receiving)
      ensures this.header == header && AnswerLog == old(AnswerLog)
      ensures Requests == old(Requests) + if old(phase) == Idle then 1 else 0
    {
      if Reserved4 || !Reserved5 {
        Reserved4 := false;
        Reserved5 := true;
        Reserved8 := false;
        Requests := Requests + 1;
      }
      this.header := header;
      phase := if done then Received else Receiving;
    }

    /** A request has been answered since; that happens only when all of the answer is on the wire. */
    twostate predicate Answered()
      reads this
    {
      AnswerLog != old(AnswerLog)
    }

    /** `ILibWebServer_Send_Raw` */
    method Send_Raw(buffer: string, done: bool) returns (r: int)
      requires Valid() && buffer != "" && (phase == Received || (phase == Receiving && !done))
      modifies this`Reserved4, this`Reserved8, this`phase, this`AnswerLog, socket, socket.Nodes
      ensures Valid() && socket.Accepted == old(socket.Accepted) + buffer
      ensures forall k :: 0 <= k < |socket.Nodes| ==> socket.Nodes[k] in old(socket.Nodes) || fresh(socket.Nodes[k])
      ensures phase == Over <==> r == SEND_ON_CLOSED_SOCKET_ERROR || r == SEND_RESULTED_IN_DISCONNECT
      ensures !done ==> r != SEND_RESULTED_IN_DISCONNECT
      ensures !done ==> AnswerLog == old(AnswerLog) && (phase == old(phase) || r == SEND_ON_CLOSED_SOCKET_ERROR)
      ensures done && phase == Answering ==> AnswerLog == old(AnswerLog)
      ensures done ==> phase == Answering || phase == Idle || phase == Over
      ensures Answered() <==> done && (phase == Idle || r == SEND_RESULTED_IN_DISCONNECT)
      ensures Answered() ==> socket.Wire == socket.Accepted
      ensures old(Drained()) ==> Drained()
    {
      hide KeepsAlive, Unsent;
      Reserved4 := done;
      r := socket.Send(buffer);
      if r == SEND_ON_CLOSED_SOCKET_ERROR {
        phase := Over;
      } else if done {
        if r == 0 {
          NothingUnsent();
          socket.DrainedIsSent();
          r := RequestAnswered();
        } else {
          phase := Answering;
        }
      }
    }

    lemma NothingUnsent()
      requires socket.Nodes == []
      ensures |Unsent(socket.Nodes)| == 0
    {
    }

    /** A writable socket: the queue is sent, and `ILibWebServer_OnSendOK` runs. The result is that of
        RequestAnswered, or the closed socket when the queue could not be sent. */
    method Writable(patience: nat) returns (r: int)
      requires Valid() && phase != Over && socket.Nodes != []
      modifies this`Reserved8, this`phase, this`AnswerLog, socket, socket.Nodes
      ensures Valid() && socket.Accepted == old(socket.Accepted)
      ensures socket.Nodes == []
      ensures old(phase) != Answering ==> (phase == old(phase) || phase == Over) && r != SEND_RESULTED_IN_DISCONNECT
      ensures old(phase) == Answering ==> phase == Idle || phase == Over
      ensures r == if phase != Over then 0
                   else if Answered() then SEND_RESULTED_IN_DISCONNECT else SEND_ON_CLOSED_SOCKET_ERROR
      ensures Answered() <==> old(phase) == Answering && r != SEND_ON_CLOSED_SOCKET_ERROR
      ensures r != SEND_ON_CLOSED_SOCKET_ERROR ==> socket.Wire == socket.Accepted
      ensures old(Drained()) ==> Drained()
    {
      r := 0;
      var triggered := socket.PostSelect(patience);
      NothingUnsent();
      if !triggered {
        phase := Over;
        r := SEND_ON_CLOSED_SOCKET_ERROR;
      } else {
        if Reserved4 {
          r := RequestAnswered();
        }
      }
    }

    /** `ILibWebServer_StreamHeader`: on HTTP/1.1 the body that follows is chunked. */
    method StreamHeader(p: Packet) returns (r: int)
      requires Valid() && phase == Received && -1 <= p.statusCode <= 999 && (p.statusCode == -1 ==> |p.version| <= 3)
      modifies this`Reserved4, this`Reserved6, this`Reserved8, this`phase, this`AnswerLog, socket, socket.Nodes
      ensures Valid() && AnswerLog == old(AnswerLog)
      ensures forall k :: 0 <= k < |socket.Nodes| ==> socket.Nodes[k] in old(socket.Nodes) || fresh(socket.Nodes[k])
      ensures socket.Accepted ==
        old(socket.Accepted) + Print(if Http10() then p else p.(fields := ChunkIt(p.fields)), "")
      ensures phase == Received || r == SEND_ON_CLOSED_SOCKET_ERROR
      ensures Reserved6 == (old(Reserved6) || (Http10() && Grammar.NoLength(p.fields)))
    {
      hide Print, ChunkIt, WebClient.SameIgnoringCase, HasContentLength, Grammar.NoLength;
      LengthMeans(p.fields);
      var fields := p.fields;
      var n := FindContentLength(fields);
      if !Http10() {
        if n < |fields| {
          fields := fields[n := HeaderField("Transfer-Encoding", "chunked")];
        } else {
          fields := fields + [HeaderField("Transfer-Encoding", "chunked")];
        }
      } else if n == |fields| {
        Reserved6 := true;
      }
      assert Valid();
      hide Valid, Flags;
      var buffer, length := GetRawPacket(p.(fields := fields), "");
      PrintIsNotEmpty(p.(fields := fields), "");
      r := Send_Raw(buffer[..length], false);
    }

    /** `ILibWebServer_StreamHeader_Raw`: status line, transfer coding, header text and blank line. */
    method StreamHeaderRaw(code: nat, data: string, headers: Option<string>) returns (r: int)
      requires Valid() && phase == Received && (headers.Some? ==> headers.value != "")
      modifies this`Reserved4, this`Reserved6, this`Reserved8, this`phase, this`AnswerLog, socket, socket.Nodes
      ensures Valid() && AnswerLog == old(AnswerLog)
      ensures forall k :: 0 <= k < |socket.Nodes| ==> socket.Nodes[k] in old(socket.Nodes) || fresh(socket.Nodes[k])
      ensures phase == Received || r == SEND_ON_CLOSED_SOCKET_ERROR
      ensures r != SEND_ON_CLOSED_SOCKET_ERROR ==>
        phase == Received && r != SEND_RESULTED_IN_DISCONNECT && Reserved6 == (old(Reserved6) || Http10())
      ensures r != SEND_ON_CLOSED_SOCKET_ERROR ==>
        socket.Accepted == old(socket.Accepted) + (RawHead(code, data, headers, !Http10()) + WebClient.HEADER_END)
    {
      ghost var before := socket.Accepted;
      var start := StatusText(code, data);
      assert start != "";
      ghost var coding := if Http10() then "" else CODING;
      hide Flags, Valid, StatusText, Drained;
      FourPieces(before, start, coding, headers.GetOr(""), WebClient.HEADER_END);
      r := Send_Raw(start, false);
      if r != SEND_ON_CLOSED_SOCKET_ERROR && r != SEND_RESULTED_IN_DISCONNECT {
        r := SendRest(headers, r);
      }
    }

    method SendRest(headers: Option<string>, status: int) returns (r: int)
      requires Valid() && phase == Received && (headers.Some? ==> headers.value != "")
      requires status != SEND_ON_CLOSED_SOCKET_ERROR && status != SEND_RESULTED_IN_DISCONNECT
      modifies this`Reserved4, this`Reserved6, this`Reserved8, this`phase, this`AnswerLog, socket, socket.Nodes
      ensures Valid() && AnswerLog == old(AnswerLog)
      ensures forall k :: 0 <= k < |socket.Nodes| ==> socket.Nodes[k] in old(socket.Nodes) || fresh(socket.Nodes[k])
      ensures phase == Received || r == SEND_ON_CLOSED_SOCKET_ERROR
      ensures r != SEND_ON_CLOSED_SOCKET_ERROR ==>
        && phase == Received && r != SEND_RESULTED_IN_DISCONNECT && Reserved6 == (old(Reserved6) || Http10())
        && socket.Accepted ==
           old(socket.Accepted) + (if Http10() then "" else CODING) + headers.GetOr("") + WebClient.HEADER_END
    {
      hide Flags, Valid, Drained;
      r := SendHeaders(headers, status);
      if r != SEND_ON_CLOSED_SOCKET_ERROR && r != SEND_RESULTED_IN_DISCONNECT {
        r := Send_Raw(WebClient.HEADER_END, false);
      }
    }

    /** The transfer coding, or the flag that the connection must close; and the header text. */
    method SendHeaders(headers: Option<string>, status: int) returns (r: int)
      requires Valid() && phase == Received && (headers.Some? ==> headers.value != "")
      requires status != SEND_ON_CLOSED_SOCKET_ERROR && status != SEND_RESULTED_IN_DISCONNECT
      modifies this`Reserved4, this`Reserved6, this`Reserved8, this`phase, this`AnswerLog, socket, socket.Nodes
      ensures Valid() && AnswerLog == old(AnswerLog)
      ensures forall k :: 0 <= k < |socket.Nodes| ==> socket.Nodes[k] in old(socket.Nodes) || fresh(socket.Nodes[k])
      ensures phase == Received || r == SEND_ON_CLOSED_SOCKET_ERROR
      ensures r != SEND_ON_CLOSED_SOCKET_ERROR ==>
        && phase == Received && r != SEND_RESULTED_IN_DISCONNECT && Reserved6 == (old(Reserved6) || Http10())
        && socket.Accepted == old(socket.Accepted) + (if Http10() then "" else CODING) + headers.GetOr("")
    {
      r := status;
      ghost var before := socket.Accepted;
      assert before + "" == before && before + CODING + "" == before + CODING;
      if !Http10() {
        hide Flags, Valid, Drained;
        r := Send_Raw(CODING, false);
      } else {
        Reserved6 := true;
      }
      hide Flags, Valid, Drained;
      if headers.Some? && r != SEND_ON_CLOSED_SOCKET_ERROR && r != SEND_RESULTED_IN_DISCONNECT {
        r := Send_Raw(headers.value, false);
      }
    }

    /** `ILibWebServer_StreamBody` on HTTP/1.1. */
    method StreamBody(buffer: string, done: bool) returns (r: int)
      requires Valid() && phase == Received && !Http10() && |buffer| <= INT_MAX
      modifies this`Reserved4, this`Reserved8, this`phase, this`AnswerLog, socket, socket.Nodes
      ensures Valid()
      ensures forall k :: 0 <= k < |socket.Nodes| ==> socket.Nodes[k] in old(socket.Nodes) || fresh(socket.Nodes[k])
      ensures phase != Over ==> socket.Accepted == old(socket.Accepted) + StreamBytes(buffer, done)
      ensures phase == Over <==> r == SEND_ON_CLOSED_SOCKET_ERROR || r == SEND_RESULTED_IN_DISCONNECT
      ensures phase == Over || (if done then phase == Idle || phase == Answering else phase == Received)
      ensures Answered() <==> done && (phase == Idle || r == SEND_RESULTED_IN_DISCONNECT)
      ensures !done ==> r != SEND_RESULTED_IN_DISCONNECT
      ensures Answered() ==> socket.Wire == socket.Accepted == old(socket.Accepted) + StreamBytes(buffer, done)
      ensures old(Drained()) ==> Drained()
    {
      r := 0;
      ghost var before := socket.Accepted;
      if |buffer| > 0 {
        r := SendChunk(buffer);
      }
      ghost var sent := if buffer != "" then EncodeChunk(buffer) else "";
      assert before + "" == before;
      assert phase == Received ==> socket.Accepted == before + sent;
      Sequences.Assoc(before, sent, if done then LAST_CHUNK else "");
      assert sent + "" == sent && before + sent + "" == before + sent;
      if done && r != SEND_ON_CLOSED_SOCKET_ERROR && r != SEND_RESULTED_IN_DISCONNECT {
        r := Send_Raw(LAST_CHUNK, true);
      }
    }

    method SendChunk(buffer: string) returns (r: int)
      requires Valid() && phase == Received && 0 < |buffer| <= INT_MAX
      modifies this`Reserved4, this`Reserved8, this`phase, this`AnswerLog, socket, socket.Nodes
      ensures Valid() && AnswerLog == old(AnswerLog)
      ensures forall k :: 0 <= k < |socket.Nodes| ==> socket.Nodes[k] in old(socket.Nodes) || fresh(socket.Nodes[k])
      ensures r != SEND_ON_CLOSED_SOCKET_ERROR ==>
        phase == Received && socket.Accepted == old(socket.Accepted) + EncodeChunk(buffer)
      ensures r == SEND_ON_CLOSED_SOCKET_ERROR ==> phase == Over
      ensures r != SEND_RESULTED_IN_DISCONNECT
    {
      var line := PrintNat(|buffer|, 16) + CRLF;
      ChunkLineFits(buffer);
      ChunkPieces(socket.Accepted, buffer);
      hide PrintNat, Valid, Flags, EncodeChunk, Drained;
      r := Send_Raw(line, false);
      if r != SEND_ON_CLOSED_SOCKET_ERROR {
        r := SendTwo(buffer, CRLF);
      }
    }

    method SendTwo(a: string, b: string) returns (r: int)
      requires Valid() && phase == Received && a != "" && b != ""
      modifies this`Reserved4, this`Reserved8, this`phase, this`AnswerLog, socket, socket.Nodes
      ensures Valid() && AnswerLog == old(AnswerLog)
      ensures forall k :: 0 <= k < |socket.Nodes| ==> socket.Nodes[k] in old(socket.Nodes) || fresh(socket.Nodes[k])
      ensures r != SEND_ON_CLOSED_SOCKET_ERROR ==>
        phase == Received && socket.Accepted == old(socket.Accepted) + a + b
      ensures r == SEND_ON_CLOSED_SOCKET_ERROR ==> phase == Over
      ensures r != SEND_RESULTED_IN_DISCONNECT
    {
      hide Valid, Flags, Drained;
      r := Send_Raw(a, false);
      if r != SEND_ON_CLOSED_SOCKET_ERROR {
        r := Send_Raw(b, false);
      }
    }

    /** `ILibWebServer_StreamBody` on HTTP/1.0. A final call without bytes goes straight to
        RequestAnswered: it is the one answer that does not wait for the queue, so it is drained
        exactly when the queue was empty. */
    method StreamBody10(buffer: string, done: bool) returns (r: int)
      requires Valid() && phase == Received && Http10()
      modifies this`Reserved4, this`Reserved8, this`phase, this`AnswerLog, socket, socket.Nodes
      ensures Valid() && socket.Accepted == old(socket.Accepted) + buffer
      ensures forall k :: 0 <= k < |socket.Nodes| ==> socket.Nodes[k] in old(socket.Nodes) || fresh(socket.Nodes[k])
      ensures !done ==> phase == Received || (phase == Over && r == SEND_ON_CLOSED_SOCKET_ERROR)
      ensures !done ==> AnswerLog == old(AnswerLog)
      ensures old(Drained()) && !(buffer == "" && done) ==> Drained()
      ensures buffer == "" && done ==> AnswerLog == old(AnswerLog) + [|old(Unsent(socket.Nodes))|]
      ensures old(Drained()) && buffer == "" && done ==> (Drained() <==> |old(Unsent(socket.Nodes))| == 0)
    {
      if buffer != "" {
        r := Send_Raw(buffer, done);
      } else if done {
        r := RequestAnswered();
        assert AnswerLog[|AnswerLog| - 1] == |old(Unsent(socket.Nodes))|;
      } else {
        r := 0;
      }
    }

    /** An HTTP/1.0 answer that ends with an empty part: whenever the kernel has not taken all of the part
        before it, the request counts as answered with bytes still queued. */
    method AnswerWithEmptyEnd(buffer: string) returns (queued: bool)
      requires Valid() && Drained() && phase == Received && Http10()
      modifies this`Reserved4, this`Reserved8, this`phase, this`AnswerLog, socket, socket.Nodes
      ensures queued ==> !Drained() && AnswerLog[|AnswerLog| - 1] > 0
      ensures !queued ==> Drained()
    {
      hide Flags;
      var r := StreamBody10(buffer, false);
      if r == SEND_ON_CLOSED_SOCKET_ERROR {
        queued := false;
      } else {
        QueuedIsUnsent();
        queued := socket.PendingSend_Head != null;
        var _ := StreamBody10("", true);
      }
    }

    lemma QueuedIsUnsent()
      requires socket.Valid()
      ensures socket.PendingSend_Head != null <==> |Unsent(socket.Nodes)| > 0
    {
    }
  }

  lemma FourPieces(before: string, a: string, b: string, c: string, d: string)
    ensures before + a + b + c + d == before + (a + b + c + d)
  {
  }

  lemma ChunkPieces(before: string, buffer: string)
    requires buffer != ""
    ensures before + (PrintNat(|buffer|, 16) + CRLF) + buffer + CRLF == before + EncodeChunk(buffer)
    ensures PrintNat(|buffer|, 16) + CRLF != ""
  {
    hide PrintNat;
    var line := PrintNat(|buffer|, 16) + CRLF;
    Sequences.Assoc(before, line, buffer);
    Sequences.Assoc(before, line + buffer, CRLF);
  }

  lemma PrintIsNotEmpty(p: Packet, body: string)
    requires p.statusCode >= -1
    ensures Print(p, body) != ""
  {
  }

  /** The search for a Content-Length field. */
  method FindContentLength(fields: seq<HeaderField>) returns (n: nat)
    ensures n <= |fields|
    ensures n == |fields| <==> !HasContentLength(fields)
    ensures ChunkIt(fields) ==
      if n < |fields| then fields[n := HeaderField("Transfer-Encoding", "chunked")]
      else fields + [HeaderField("Transfer-Encoding", "chunked")]
  {
    n := 0;
    while n < |fields| && !WebClient.SameIgnoringCase(fields[n].name, "Content-Length")
      invariant n <= |fields|
      invariant ChunkIt(fields) == fields[..n] + ChunkIt(fields[n..])
      invariant forall k :: 0 <= k < n ==> !WebClient.SameIgnoringCase(fields[k].name, "Content-Length")
    {
      ChunkItLater(fields, n);
      n := n + 1;
    }
    ChunkItHere(fields, n);
  }

  lemma LengthMeans(fields: seq<HeaderField>)
    ensures HasContentLength(fields) <==> !Grammar.NoLength(fields)
  {
    hide Grammar.Named, WebClient.SameIgnoringCase;
    Grammar.NamedLower("Content-Length", "Content-Length");
    forall k | 0 <= k < |fields|
      ensures Grammar.Named(fields[k].name, "Content-Length") <==>
        WebClient.SameIgnoringCase(fields[k].name, "Content-Length")
    {
      Grammar.NamedIgnoresCase(fields[k].name, "Content-Length", "Content-Length");
    }
  }

  ghost predicate HasContentLength(fields: seq<HeaderField>) {
    exists k :: 0 <= k < |fields| && WebClient.SameIgnoringCase(fields[k].name, "Content-Length")
  }

  predicate IsConnection(f: HeaderField, token: string) {
    WebClient.SameIgnoringCase(f.name, "CONNECTION") && WebClient.SameIgnoringCase(f.data, token)
  }

  ghost predicate HasConnection(fields: seq<HeaderField>, token: string) {
    exists k :: 0 <= k < |fields| && IsConnection(fields[k], token)
  }

  /** A Connection field has the token, both in any case. */
  ghost predicate Says(fields: seq<HeaderField>, token: string) {
    exists k :: 0 <= k < |fields| && Grammar.Named(fields[k].name, "Connection") && Grammar.Named(fields[k].data, token)
  }

  lemma UpperTokens()
    ensures Grammar.Named("Connection", "CONNECTION")
    ensures Grammar.Named("keep-alive", "KEEP-ALIVE") && Grammar.Named("close", "CLOSE")
  {
    hide Grammar.Named;
    Grammar.NamedLower("Connection", "CONNECTION");
    Grammar.NamedLower("keep-alive", "KEEP-ALIVE");
    Grammar.NamedLower("close", "CLOSE");
  }

  lemma ConnectionMeans(fields: seq<HeaderField>, token: string, lower: string)
    requires (token == "KEEP-ALIVE" && lower == "keep-alive") || (token == "CLOSE" && lower == "close")
    ensures HasConnection(fields, token) <==> Says(fields, lower)
  {
    UpperTokens();
    hide Grammar.Named, WebClient.SameIgnoringCase;
    forall k | 0 <= k < |fields|
      ensures IsConnection(fields[k], token) <==>
        Grammar.Named(fields[k].name, "Connection") && Grammar.Named(fields[k].data, lower)
    {
      Grammar.NamedIgnoresCase(fields[k].name, "Connection", "CONNECTION");
      Grammar.NamedIgnoresCase(fields[k].data, lower, token);
    }
  }

  /** The first Content-Length becomes the chunked coding, which is appended when there is none; all other fields
      stay as they are. */
  lemma {:induction false} ChunkItMeans(fields: seq<HeaderField>) returns (n: nat)
    ensures n <= |fields| && Grammar.NoLength(fields[..n])
    ensures n < |fields| ==> Grammar.Named(fields[n].name, "Content-Length")
    ensures ChunkIt(fields) == fields[..n] + [HeaderField("Transfer-Encoding", "chunked")]
      + if n < |fields| then fields[n + 1..] else []
  {
    hide Grammar.Named, WebClient.SameIgnoringCase;
    if fields == [] {
      n := 0;
    } else {
      Grammar.NamedLower("Content-Length", "Content-Length");
      Grammar.NamedIgnoresCase(fields[0].name, "Content-Length", "Content-Length");
      if WebClient.SameIgnoringCase(fields[0].name, "Content-Length") {
        n := 0;
      } else {
        var k := ChunkItMeans(fields[1..]);
        n := k + 1;
        assert fields[..n] == [fields[0]] + fields[1..][..k];
        assert n < |fields| ==> fields[n + 1..] == fields[1..][k + 1..];
      }
    }
  }

  lemma ChunkItLater(fields: seq<HeaderField>, n: nat)
    requires n < |fields| && !WebClient.SameIgnoringCase(fields[n].name, "Content-Length")
    ensures fields[..n] + ChunkIt(fields[n..]) == fields[..n + 1] + ChunkIt(fields[n + 1..])
  {
    assert fields[n..][1..] == fields[n + 1..];
    assert fields[..n + 1] == fields[..n] + [fields[n]];
  }

  lemma ChunkItHere(fields: seq<HeaderField>, n: nat)
    requires n <= |fields| && (n < |fields| ==> WebClient.SameIgnoringCase(fields[n].name, "Content-Length"))
    ensures fields[..n] + ChunkIt(fields[n..]) ==
      if n < |fields| then fields[n := HeaderField("Transfer-Encoding", "chunked")]
      else fields + [HeaderField("Transfer-Encoding", "chunked")]
  {
  }
}
