/** Messages on a byte stream, and the proof that the message reader recovers exactly them from any
    fragmentation of the stream. */
module MessageFraming {
  import opened Options
  import opened Splitter
  import opened PacketHeader
  import opened ReceiveLoop
  import opened WebClient
  import Sequences

  /** A chunk on the wire: its size line, whatever it looks like, and its data. */
  datatype Piece = Piece(line: string, data: string)

  datatype Body =
    | NoBody
    | Sized(text: string)
    | Chunks(pieces: seq<Piece>, last: string)

  /** A message: the lines of its header block without the blank line behind them, and its body. */
  datatype Message = Message(block: string, body: Body)

  // ----- the wire

  function WirePieces(pieces: seq<Piece>): string {
    if pieces == [] then ""
    else pieces[0].line + CRLF + pieces[0].data + CRLF + WirePieces(pieces[1..])
  }

  function WireBody(b: Body): string {
    match b
    case NoBody => ""
    case Sized(text) => text
    case Chunks(pieces, last) => WirePieces(pieces) + (last + CRLF + CRLF)
  }

  function Wire(ms: seq<Message>): string {
    if ms == [] then "" else ms[0].block + HEADER_END + (WireBody(ms[0].body) + Wire(ms[1..]))
  }

  // ----- what the messages say

  function Data(pieces: seq<Piece>): string {
    if pieces == [] then "" else pieces[0].data + Data(pieces[1..])
  }

  function Text(b: Body): string {
    match b
    case NoBody => ""
    case Sized(text) => text
    case Chunks(pieces, _) => Data(pieces)
  }

  /** The first d in a + d is the final one. */
  predicate EndsFirst(a: string, d: string)
    requires d != ""
  {
    Find(a + d, d) == |a|
  }

  predicate ChunkLine(line: string, size: nat) {
    EndsFirst(line, CRLF) && ChunkSize(line) == size
  }

  predicate WellFormedPieces(pieces: seq<Piece>) {
    forall p :: p in pieces ==> p.data != "" && ChunkLine(p.line, |p.data|)
  }

  /** The header block parses, and announces the body that follows it. */
  predicate Announces(server: bool, m: Message) {
    && EndsFirst(m.block, HEADER_END)
    && ParseLines(Split(m.block, CRLF)).Parsed?
    && var p := Header(m);
       var f := FramingOf(p);
       && |p.version| <= 3
       && match m.body
          case NoBody => f.bytesLeft == 0 || (server && f.bytesLeft == -1)
          case Sized(text) => text != "" && !f.chunked && f.bytesLeft == |text|
          case Chunks(pieces, last) =>
            && f.chunked && f.bytesLeft != 0 && (server ==> f.bytesLeft != -1)
            && WellFormedPieces(pieces) && ChunkLine(last, 0)
  }

  function Header(m: Message): Packet
    requires ParseLines(Split(m.block, CRLF)).Parsed?
  {
    ParseLines(Split(m.block, CRLF)).packet
  }

  /** A consumer that takes everything at once is offered the bytes of a Content-Length body again and
      again, so that body needs a consumer that holds. A chunked request must not be answered inside its
      done call, which frees the chunk under the reader; answers(n) says that request n is. */
  predicate Readable(server: bool, mode: Mode, answers: nat -> bool, ms: seq<Message>) {
    && (forall m :: m in ms ==> Announces(server, m) && (m.body.Sized? ==> mode.HoldUntilDone?))
    && (server ==> forall k :: 0 <= k < |ms| && ms[k].body.Chunks? ==> !answers(k))
  }

  function ResponseTo(m: Message): Response
    requires ParseLines(Split(m.block, CRLF)).Parsed?
  {
    Response(Some(Header(m)), Text(m.body))
  }

  /** The done calls the messages must lead to, in order. */
  function Expected(ms: seq<Message>): (r: seq<Response>)
    requires forall m :: m in ms ==> ParseLines(Split(m.block, CRLF)).Parsed?
    ensures |r| == |ms|
    ensures forall k :: 0 <= k < |ms| ==> r[k] == ResponseTo(ms[k])
  {
    seq(|ms|, k requires 0 <= k < |ms| => ResponseTo(ms[k]))
  }

  // ----- the invariant

  /** Between messages. */
  predicate Idle(c: Client, ms: seq<Message>, rest: string) {
    !c.finHeader && !c.chunked && c.chunk.None? && c.taken == "" && rest == Wire(ms)
  }

  predicate InSizedBody(c: Client, ms: seq<Message>, rest: string) {
    && ms != [] && ms[0].body.Sized?
    && ParseLines(Split(ms[0].block, CRLF)).Parsed?
    && c.finHeader && !c.chunked && c.chunk.None? && c.headerLength == 0 && c.taken == ""
    && c.header == Some(Header(ms[0]))
    && c.bytesLeft == |ms[0].body.text| > 0
    && rest == ms[0].body.text + Wire(ms[1..])
  }

  function ChunkOf(c: Client): Chunk {
    if c.chunk.None? then Chunk(STARTCHUNK, "", 0) else c.chunk.value
  }

  /** What the consumer or the chunk buffer has of the body so far. */
  function Got(c: Client): string {
    c.taken + ChunkOf(c).buffer
  }

  /** The stream from the next piece on. */
  function Tail(pieces: seq<Piece>, last: string, after: string): string {
    WirePieces(pieces) + (last + CRLF + (CRLF + after))
  }

  /** The unread bytes of a chunked body: d is left of the piece under way, the pieces follow. */
  predicate ChunkRest(chunk: Chunk, d: string, pieces: seq<Piece>, last: string, after: string, rest: string) {
    match chunk.flag
    case STARTCHUNK => d == "" && rest == Tail(pieces, last, after)
    case DATACHUNK => d != "" && chunk.bytesLeft == |d| && rest == d + (CRLF + Tail(pieces, last, after))
    case ENDCHUNK => d == "" && rest == CRLF + Tail(pieces, last, after)
    case FOOTERCHUNK => d == "" && pieces == [] && rest == CRLF + after
  }

  /** The account of a chunked body: what the consumer has and what is to come make up the body. */
  predicate ChunkBook(c: Client, d: string, pieces: seq<Piece>, body: string) {
    && Got(c) + (d + Data(pieces)) == body
    && (c.mode.TakeAll? ==> ChunkOf(c).buffer == "")
    && (c.mode.HoldUntilDone? ==> c.taken == "")
  }

  ghost predicate ChunkState(c: Client, d: string, pieces: seq<Piece>, last: string, after: string, body: string,
                             rest: string)
  {
    && WellFormedPieces(pieces) && ChunkLine(last, 0)
    && ChunkBook(c, d, pieces, body)
    && ChunkRest(ChunkOf(c), d, pieces, last, after, rest)
  }

  ghost predicate InChunks(c: Client, ms: seq<Message>, rest: string) {
    && (c.server ==> !c.answersAtOnce(|c.responses|)) && ms != [] && ms[0].body.Chunks?
    && ParseLines(Split(ms[0].block, CRLF)).Parsed?
    && c.finHeader && c.chunked
    && c.header == Some(Header(ms[0]))
    && exists d, pieces, last :: ChunkState(c, d, pieces, last, Wire(ms[1..]), Text(ms[0].body), rest)
  }

  /** What holds of every state: nothing has gone wrong, the done calls so far are those of the first
      messages, and ms are the ones still to come. */
  ghost predicate Steady(c: Client, all: seq<Message>, server: bool, mode: Mode, answers: nat -> bool, ms: seq<Message>)
    requires Readable(server, mode, answers, all)
  {
    && !c.faulted && c.server == server && c.mode == mode && c.answersAtOnce == answers
    && |c.responses| <= |all|
    && ms == all[|c.responses|..]
    && c.responses == Expected(all)[..|c.responses|]
    && (server || c.requests >= |ms|)
  }

  ghost predicate Running(all: seq<Message>, server: bool, mode: Mode, answers: nat -> bool, c: Client, rest: string)
    requires Readable(server, mode, answers, all)
  {
    && |c.responses| <= |all|
    && var ms := all[|c.responses|..];
       && Steady(c, all, server, mode, answers, ms) && !c.pause
       && (Idle(c, ms, rest) || InSizedBody(c, ms, rest) || InChunks(c, ms, rest))
  }

  /** A server connection that waits for its owner's answer. */
  ghost predicate Parked(all: seq<Message>, server: bool, mode: Mode, answers: nat -> bool, c: Client, rest: string)
    requires Readable(server, mode, answers, all)
  {
    && |c.responses| <= |all|
    && var ms := all[|c.responses|..];
       && Steady(c, all, server, mode, answers, ms) && c.pause
       && c.taken == "" && rest == Wire(ms)
  }

  ghost function Reading(all: seq<Message>, server: bool, mode: Mode, answers: nat -> bool): Invariant<Client>
    requires Readable(server, mode, answers, all)
  {
    Invariant((c, rest) => Running(all, server, mode, answers, c, rest),
              (c, rest) => Parked(all, server, mode, answers, c, rest))
  }

  // ----- finding line ends in a window

  /** A match inside the window is the match of the whole stream. */
  lemma MatchInWindow(w: string, future: string, a: string, d: string, x: string)
    requires d != "" && EndsFirst(a, d)
    requires w + future == a + d + x
    requires Find(w, d) < |w|
    ensures Find(w, d) == |a| && |a| + |d| <= |w| && w[..|a|] == a && w[|a| + |d|..] + future == x
    ensures w == a + d + w[|a| + |d|..]
  {
    FindWithin(w, future, d);
    FindWithin(a + d, x, d);
    hide Occurs;
    var n := |a| + |d|;
    Sequences.DropAll(a + d, x);
    Sequences.DropWithin(w, future, n);
    Sequences.DropWithin(w, future, |a|);
    Sequences.DropWithin(a + d, x, |a|);
    Sequences.DropAll(a, d);
    assert w[..n] == (w + future)[..n];
    Sequences.TakeDrop(w, n);
  }

  lemma MatchInWhole(a: string, d: string, x: string)
    requires d != "" && EndsFirst(a, d)
    ensures Find(a + d + x, d) == |a|
  {
    FindWithin(a + d, x, d);
  }

  // ----- one call of OnData

  ghost predicate Good(all: seq<Message>, server: bool, mode: Mode, answers: nat -> bool, c: Client, rest: string)
    requires Readable(server, mode, answers, all)
  {
    if c.pause then Parked(all, server, mode, answers, c, rest) else Running(all, server, mode, answers, c, rest)
  }

  lemma Completed(c: Client, all: seq<Message>, server: bool, mode: Mode, answers: nat -> bool, ms: seq<Message>,
                  c2: Client)
    requires Readable(server, mode, answers, all) && Steady(c, all, server, mode, answers, ms) && ms != []
    requires c2.responses == c.responses + [ResponseTo(ms[0])]
    requires !c2.faulted && c2.server == server && c2.mode == mode && c2.answersAtOnce == answers
    requires (server || c2.requests + 1 == c.requests)
    ensures |c2.responses| <= |all| && all[|c2.responses|..] == ms[1..]
    ensures Steady(c2, all, server, mode, answers, ms[1..])
  {
    var j := |c.responses|;
    ExpectedStep(all, j);
    hide ResponseTo, Readable, Expected;
  }

  lemma ExpectedStep(all: seq<Message>, j: nat)
    requires (forall m :: m in all ==> ParseLines(Split(m.block, CRLF)).Parsed?) && j < |all|
    ensures all[j] == all[j..][0] && all[j..][1..] == all[j + 1..]
    ensures Expected(all)[..j + 1] == Expected(all)[..j] + [ResponseTo(all[j])]
  {
    hide ResponseTo;
  }

  /** The done call of a complete message leaves the connection between messages, or parked. */
  lemma AfterDone(all: seq<Message>, server: bool, mode: Mode, answers: nat -> bool, c: Client, ms: seq<Message>,
                  data: string)
    requires Readable(server, mode, answers, all) && Steady(c, all, server, mode, answers, ms) && ms != [] && !c.pause
    requires c.header == Some(Header(ms[0]))
    requires (if mode.TakeAll? then c.taken + data else data) == Text(ms[0].body)
    ensures Good(all, server, mode, answers, FinishedResponse(Respond(c, data, true).0), Wire(ms[1..]))
  {
    hide Header, Text, Announces, Wire;
    var c2 := FinishedResponse(Respond(c, data, true).0);
    Completed(c, all, server, mode, answers, ms, c2);
  }

  lemma StillRunning(all: seq<Message>, server: bool, mode: Mode, answers: nat -> bool, c: Client, ms: seq<Message>,
                     c2: Client, rest: string)
    requires Readable(server, mode, answers, all) && Steady(c, all, server, mode, answers, ms)
    requires c2.faulted == c.faulted && c2.server == c.server && c2.mode == c.mode
      && c2.answersAtOnce == c.answersAtOnce
    requires c2.requests == c.requests
    requires c2.responses == c.responses && !c2.pause
    requires Idle(c2, ms, rest) || InSizedBody(c2, ms, rest) || InChunks(c2, ms, rest)
    ensures Good(all, server, mode, answers, c2, rest)
  {
    hide Idle, InSizedBody, InChunks, Readable;
  }

  lemma SizedFacts(all: seq<Message>, server: bool, mode: Mode, answers: nat -> bool, c: Client, ms: seq<Message>)
    requires Readable(server, mode, answers, all) && Steady(c, all, server, mode, answers, ms)
    requires ms != [] && ms[0].body.Sized? && ms[0] in all
    ensures ParseLines(Split(ms[0].block, CRLF)).Parsed?
    ensures |Header(ms[0]).version| <= 3 && mode.HoldUntilDone? && c.mode == mode
  {
  }

  lemma AfterSizedHeader(all: seq<Message>, server: bool, mode: Mode, answers: nat -> bool, c: Client,
                         ms: seq<Message>, i: nat, text: string, y: string, future: string)
    requires Readable(server, mode, answers, all) && Steady(c, all, server, mode, answers, ms) && ms != [] && !c.pause
    requires ms[0].body == Sized(text) && ms[0] in all && !c.chunked && c.taken == "" && c.chunk.None?
    requires c.finHeader && c.header == Some(Header(ms[0])) && c.bytesLeft == |text| > 0
    requires y + future == text + Wire(ms[1..])
    ensures var (c2, begin) := AfterHeader(c, Header(ms[0]), i, y);
      i + 4 <= begin <= i + 4 + |y| && Good(all, server, mode, answers, c2, y[begin - i - 4..] + future)
  {
    hide Wire, Steady, Good, Readable, Header, Announces;
    SizedFacts(all, server, mode, answers, c, ms);
    var p, rest := Header(ms[0]), Wire(ms[1..]);
    if |y| >= |text| {
      Sequences.CutPrefix(y, future, text, rest);
      WholeBodyArrived(c, p, i, text, y);
      hide AfterHeader, Respond, FinishedResponse;
      AfterDone(all, server, mode, answers, c, ms, text);
    } else {
      var c2 := c.(headerLength := 0);
      PartOfBodyArrived(c, p, i, y);
      hide AfterHeader;
      assert y[0..] == y;
      StillRunning(all, server, mode, answers, c, ms, c2, y + future);
    }
  }

  lemma WholeBodyArrived(c: Client, p: Packet, i: nat, text: string, y: string)
    requires !c.chunked && c.bytesLeft == |text| > 0 && text <= y
    ensures AfterHeader(c, p, i, y) == (FinishedResponse(Respond(c, text, true).0), i + 4 + |text|)
  {
    assert y[..|text|] == text;
  }

  lemma PartOfBodyArrived(c: Client, p: Packet, i: nat, y: string)
    requires !c.chunked && c.bytesLeft > |y| && c.mode.HoldUntilDone?
    requires c.header == Some(p) && |p.version| <= 3
    ensures AfterHeader(c, p, i, y) == (c.(headerLength := 0), i + 4)
  {
  }

  lemma OnSizedBodyKeeps(all: seq<Message>, server: bool, mode: Mode, answers: nat -> bool, c: Client,
                         ms: seq<Message>, text: string, w: string, future: string)
    requires Readable(server, mode, answers, all) && Steady(c, all, server, mode, answers, ms) && !c.pause
    requires InSizedBody(c, ms, w + future) && ms[0] in all && text == ms[0].body.text
    ensures var (c2, begin) := OnDataStep(c, w); Good(all, server, mode, answers, c2, w[begin..] + future)
    ensures future == "" ==> OnDataStep(c, w).1 > 0
  {
    var rest := Wire(ms[1..]);
    assert Announces(server, ms[0]) && text != "" && mode.HoldUntilDone? && c.mode == mode;
    assert !c.faulted && (c.server || c.requests > 0);
    hide Wire, Steady, Good, Announces, Readable, Header, Text;
    SizedBodyCall(c, text, w);
    hide OnDataStep, Respond, FinishedResponse;
    if |w| >= |text| {
      Sequences.CutPrefix(w, future, text, rest);
      assert Text(ms[0].body) == text by { TextOfSized(ms[0].body); }
      AfterDone(all, server, mode, answers, c, ms, text);
    } else {
      assert w[0..] == w;
      StillRunning(all, server, mode, answers, c, ms, c, w + future);
    }
  }

  lemma TextOfSized(b: Body)
    requires b.Sized?
    ensures Text(b) == b.text
  {
  }

  lemma SizedBodyCall(c: Client, text: string, w: string)
    requires !c.faulted && (c.server || c.requests > 0) && c.finHeader && !c.chunked && c.headerLength == 0
    requires c.mode.HoldUntilDone? && c.bytesLeft == |text|
    ensures |w| < |text| ==> OnDataStep(c, w) == (c, 0)
    ensures |w| >= |text| ==>
      OnDataStep(c, w) == (FinishedResponse(Respond(c, w[..|text|], true).0), |text|)
  {
    hide FinishedResponse;
  }

  // ----- one call of ProcessChunk

  lemma TailOfPiece(pieces: seq<Piece>, last: string, after: string)
    requires pieces != []
    ensures Tail(pieces, last, after) ==
      pieces[0].line + CRLF + (pieces[0].data + (CRLF + Tail(pieces[1..], last, after)))
    ensures Data(pieces) == pieces[0].data + Data(pieces[1..])
  {
    hide *;
    var p := pieces[0];
    var more, x := WirePieces(pieces[1..]), last + CRLF + (CRLF + after);
    assert Tail(pieces, last, after) == p.line + CRLF + p.data + CRLF + more + x by {
      TailUnfolds(pieces, last, after);
    }
    assert Tail(pieces[1..], last, after) == more + x by { TailUnfolds(pieces[1..], last, after); }
    Sequences.Assoc(p.line + CRLF + p.data + CRLF, more, x);
    Sequences.Assoc(p.line + CRLF + p.data, CRLF, more + x);
    Sequences.Assoc(p.line + CRLF, p.data, CRLF + (more + x));
    TailUnfolds(pieces, last, after);
  }

  lemma TailUnfolds(pieces: seq<Piece>, last: string, after: string)
    ensures Tail(pieces, last, after) == WirePieces(pieces) + (last + CRLF + (CRLF + after))
    ensures pieces != [] ==>
      WirePieces(pieces) == pieces[0].line + CRLF + pieces[0].data + CRLF + WirePieces(pieces[1..])
    ensures pieces != [] ==> Data(pieces) == pieces[0].data + Data(pieces[1..])
    ensures pieces == [] ==> Tail(pieces, last, after) == last + CRLF + (CRLF + after) && Data(pieces) == ""
  {
  }

  /** A chunk line, when its end and one byte more are in the window. */
  lemma ChunkLineInWindow(c: Client, line: string, size: nat, x: string, w: string, future: string)
    requires ChunkLine(line, size) && w + future == line + CRLF + x && x != ""
    requires ChunkOf(c).flag == STARTCHUNK
    ensures var (c2, begin) := ProcessChunk(c, w);
      if begin == 0 then c2 == c.(chunk := Some(ChunkOf(c)))
      else
        && begin <= |w| && w[begin..] + future == x
        && c2 == c.(chunk := Some(ChunkOf(c).(flag := if size == 0 then FOOTERCHUNK else DATACHUNK, bytesLeft := size)))
    ensures future == "" ==> ProcessChunk(c, w).1 > 0
  {
    var j := Find(w, CRLF);
    if future == "" {
      MatchInWhole(line, CRLF, x);
      assert w + "" == w;
    }
    if j + 2 < |w| {
      MatchInWindow(w, future, line, CRLF, x);
      hide Find, Occurs, EndsFirst;
      assert ChunkSize(w[..j]) == size;
    }
    hide Find, Occurs, EndsFirst;
  }

  lemma LastLineKeeps(c: Client, last: string, after: string, body: string, w: string, future: string)
    requires ChunkState(c, "", [], last, after, body, w + future) && ChunkOf(c).flag == STARTCHUNK
    ensures var (c2, begin) := ProcessChunk(c, w);
      && c2 == c.(chunk := c2.chunk)
      && ChunkState(c2, "", [], last, after, body, w[begin..] + future)
    ensures future == "" ==> ProcessChunk(c, w).1 > 0
  {
    hide ProcessChunk, ChunkLine, WellFormedPieces;
    TailUnfolds([], last, after);
    LastLineCall(c, last, CRLF + after, w, future);
    BookKeeps(c, ProcessChunk(c, w).0, "", [], body);
    hide ChunkBook, Tail;
  }

  lemma LastLineCall(c: Client, last: string, x: string, w: string, future: string)
    requires ChunkLine(last, 0) && x != "" && w + future == last + CRLF + x
    requires ChunkOf(c).flag == STARTCHUNK
    ensures var (c2, begin) := ProcessChunk(c, w);
      if begin == 0 then c2 == c.(chunk := Some(ChunkOf(c))) && w[begin..] + future == w + future
      else
        && w[begin..] + future == x
        && c2 == c.(chunk := Some(ChunkOf(c).(flag := FOOTERCHUNK, bytesLeft := 0)))
    ensures future == "" ==> ProcessChunk(c, w).1 > 0
  {
    hide ChunkLine;
    ChunkLineInWindow(c, last, 0, x, w, future);
    hide ProcessChunk;
    assert w[0..] == w;
  }

  /** The account depends on the bytes the consumer and the chunk buffer have, and on nothing else. */
  lemma BookKeeps(c: Client, c2: Client, d: string, pieces: seq<Piece>, body: string)
    requires c2 == c.(chunk := c2.chunk) && ChunkOf(c2).buffer == ChunkOf(c).buffer
    ensures ChunkBook(c2, d, pieces, body) == ChunkBook(c, d, pieces, body)
    ensures pieces != [] ==>
      ChunkBook(c2, pieces[0].data, pieces[1..], body) == ChunkBook(c, "", pieces, body)
  {
    TailUnfolds(pieces, "", "");
    hide Data;
    assert pieces != [] ==> "" + Data(pieces) == pieces[0].data + Data(pieces[1..]);
  }

  lemma PieceLineKeeps(c: Client, pieces: seq<Piece>, last: string, after: string, body: string, w: string,
                       future: string) returns (d: string, pieces': seq<Piece>)
    requires ChunkState(c, "", pieces, last, after, body, w + future) && ChunkOf(c).flag == STARTCHUNK
    requires pieces != []
    ensures var (c2, begin) := ProcessChunk(c, w);
      && c2 == c.(chunk := c2.chunk)
      && ChunkState(c2, d, pieces', last, after, body, w[begin..] + future)
    ensures future == "" ==> ProcessChunk(c, w).1 > 0
  {
    hide ProcessChunk, ChunkLine, ChunkBook, Tail, WellFormedPieces;
    var (c2, begin) := ProcessChunk(c, w);
    var rest := w[begin..] + future;
    PieceIsAhead(c, pieces, last, after, body, w + future);
    PieceLineCall(c, pieces[0], CRLF + Tail(pieces[1..], last, after), w, future);
    BookKeeps(c, c2, "", pieces, body);
    if begin == 0 {
      d, pieces' := "", pieces;
    } else {
      d, pieces' := pieces[0].data, pieces[1..];
    }
    assert ChunkRest(ChunkOf(c2), d, pieces', last, after, rest);
  }

  lemma PieceLineCall(c: Client, p: Piece, x: string, w: string, future: string)
    requires ChunkLine(p.line, |p.data|) && p.data != "" && w + future == p.line + CRLF + (p.data + x)
    requires ChunkOf(c).flag == STARTCHUNK
    ensures var (c2, begin) := ProcessChunk(c, w);
      if begin == 0 then c2 == c.(chunk := Some(ChunkOf(c))) && w[begin..] + future == w + future
      else
        && w[begin..] + future == p.data + x
        && c2 == c.(chunk := Some(ChunkOf(c).(flag := DATACHUNK, bytesLeft := |p.data|)))
    ensures future == "" ==> ProcessChunk(c, w).1 > 0
  {
    hide ChunkLine;
    ChunkLineInWindow(c, p.line, |p.data|, p.data + x, w, future);
    hide ProcessChunk;
    assert w[0..] == w;
  }

  lemma PieceIsAhead(c: Client, pieces: seq<Piece>, last: string, after: string, body: string, rest: string)
    requires ChunkState(c, "", pieces, last, after, body, rest) && ChunkOf(c).flag == STARTCHUNK
    requires pieces != []
    ensures ChunkLine(pieces[0].line, |pieces[0].data|) && pieces[0].data != "" && WellFormedPieces(pieces[1..])
    ensures rest == pieces[0].line + CRLF + (pieces[0].data + (CRLF + Tail(pieces[1..], last, after)))
  {
    hide ChunkBook, ChunkLine, Tail;
    assert pieces[0] in pieces;
    TailOfPiece(pieces, last, after);
  }

  lemma StartChunkKeeps(c: Client, pieces: seq<Piece>, last: string, after: string, body: string, w: string,
                        future: string) returns (d: string, pieces': seq<Piece>)
    requires ChunkState(c, "", pieces, last, after, body, w + future) && ChunkOf(c).flag == STARTCHUNK
    ensures var (c2, begin) := ProcessChunk(c, w);
      && c2 == c.(chunk := c2.chunk)
      && ChunkState(c2, d, pieces', last, after, body, w[begin..] + future)
    ensures future == "" ==> ProcessChunk(c, w).1 > 0
  {
    hide ProcessChunk, ChunkState;
    if pieces == [] {
      LastLineKeeps(c, last, after, body, w, future);
      d, pieces' := "", [];
    } else {
      d, pieces' := PieceLineKeeps(c, pieces, last, after, body, w, future);
    }
  }

  lemma DataChunkKeeps(c: Client, d: string, pieces: seq<Piece>, last: string, after: string, body: string,
                       w: string, future: string) returns (d': string)
    requires ChunkState(c, d, pieces, last, after, body, w + future) && ChunkOf(c).flag == DATACHUNK
    requires w != ""
    ensures var (c2, begin) := ProcessChunk(c, w);
      && c2 == c.(chunk := c2.chunk, taken := c2.taken)
      && begin > 0
      && ChunkState(c2, d', pieces, last, after, body, w[begin..] + future)
  {
    hide Tail, Data, WellFormedPieces, ChunkLine, ProcessChunk, Got;
    var n := if |w| >= |d| then |d| else |w|;
    var tail := CRLF + Tail(pieces, last, after);
    d' := d[n..];
    if |w| >= |d| {
      Sequences.CutPrefix(w, future, d, tail);
    } else {
      Sequences.CutInside(w, future, d, tail);
    }
    assert w[n..] + future == d' + tail && (n == |d| ==> d' + tail == tail);
    Sequences.TakeDrop(d, n);
    assert d[..n] == w[..n];
    var c2 := DataArrived(c, w, n);
    GotMore(Got(c), w[..n], d', Data(pieces));
  }

  lemma GotMore(got: string, a: string, b: string, more: string)
    ensures got + (a + b + more) == got + a + (b + more)
  {
  }

  /** Chunk data moves from the window to the chunk buffer of a holding consumer, or through it. */
  lemma DataArrived(c: Client, w: string, n: nat) returns (c2: Client)
    requires ChunkOf(c).flag == DATACHUNK && ChunkOf(c).bytesLeft > 0 && w != ""
    requires n == if |w| >= ChunkOf(c).bytesLeft then ChunkOf(c).bytesLeft else |w|
    requires c.mode.TakeAll? ==> ChunkOf(c).buffer == ""
    requires c.mode.HoldUntilDone? ==> c.taken == ""
    ensures ProcessChunk(c, w) == (c2, n) && n > 0
    ensures c2 == c.(chunk := c2.chunk, taken := c2.taken) && c2.chunk.Some?
    ensures ChunkOf(c2).bytesLeft == ChunkOf(c).bytesLeft - n
    ensures ChunkOf(c2).flag == if |w| >= ChunkOf(c).bytesLeft then ENDCHUNK else DATACHUNK
    ensures c.mode.TakeAll? ==> ChunkOf(c2).buffer == ""
    ensures c.mode.HoldUntilDone? ==> c2.taken == ""
    ensures Got(c2) == Got(c) + w[..n]
  {
    var chunk := ChunkOf(c);
    var buffer, flag := chunk.buffer, if |w| >= chunk.bytesLeft then ENDCHUNK else DATACHUNK;
    DataCall(c, w, n);
    hide ProcessChunk;
    if c.mode.TakeAll? {
      c2 := c.(taken := c.taken + (buffer + w[..n]), chunk := Some(Chunk(flag, "", chunk.bytesLeft - n)));
      assert buffer + w[..n] == w[..n] && c.taken + buffer == c.taken;
    } else {
      c2 := c.(chunk := Some(Chunk(flag, buffer + w[..n], chunk.bytesLeft - n)));
      assert c.taken + (buffer + w[..n]) == c.taken + buffer + w[..n];
    }
  }

  lemma DataCall(c: Client, w: string, n: nat)
    requires ChunkOf(c).flag == DATACHUNK && ChunkOf(c).bytesLeft > 0 && w != ""
    requires n == if |w| >= ChunkOf(c).bytesLeft then ChunkOf(c).bytesLeft else |w|
    requires c.mode.TakeAll? ==> ChunkOf(c).buffer == ""
    ensures var chunk := ChunkOf(c);
      var flag := if |w| >= chunk.bytesLeft then ENDCHUNK else DATACHUNK;
      ProcessChunk(c, w) ==
        (if c.mode.TakeAll? then
           c.(taken := c.taken + (chunk.buffer + w[..n]), chunk := Some(Chunk(flag, "", chunk.bytesLeft - n)))
         else c.(chunk := Some(Chunk(flag, chunk.buffer + w[..n], chunk.bytesLeft - n))),
         n)
  {
    hide Find, Occurs, ChunkSize;
  }

  lemma EndChunkKeeps(c: Client, pieces: seq<Piece>, last: string, after: string, body: string, w: string,
                      future: string)
    requires ChunkState(c, "", pieces, last, after, body, w + future) && ChunkOf(c).flag == ENDCHUNK
    ensures var (c2, begin) := ProcessChunk(c, w);
      && c2 == c.(chunk := c2.chunk)
      && ChunkState(c2, "", pieces, last, after, body, w[begin..] + future)
    ensures future == "" ==> ProcessChunk(c, w).1 > 0
  {
    assert w[0..] == w;
    hide Tail, Data, WellFormedPieces, ChunkLine, Find, Occurs, ChunkSize;
    BookKeeps(c, ProcessChunk(c, w).0, "", pieces, body);
    hide ChunkBook;
    if |w| >= 2 {
      Sequences.CutPrefix(w, future, CRLF, Tail(pieces, last, after));
    }
  }

  lemma FooterKeeps(c: Client, after: string, w: string, future: string)
    requires ChunkOf(c).flag == FOOTERCHUNK && w + future == CRLF + after
    requires c.server ==> !c.answersAtOnce(|c.responses|)
    ensures var (c2, begin) := ProcessChunk(c, w);
      if begin == 0 then c2 == c
      else
        && c2 == FinishedResponse(Respond(c.(chunk := None), ChunkOf(c).buffer, true).0)
        && begin <= |w| && w[begin..] + future == after
    ensures future == "" ==> ProcessChunk(c, w).1 > 0
  {
    if |w| >= 2 {
      Sequences.CutPrefix(w, future, CRLF, after);
    }
  }

  /** A window inside a chunked body. */
  lemma OnChunksKeeps(all: seq<Message>, server: bool, mode: Mode, answers: nat -> bool, c: Client, ms: seq<Message>,
                      w: string, future: string)
    requires Readable(server, mode, answers, all) && Steady(c, all, server, mode, answers, ms) && !c.pause && w != ""
    requires InChunks(c, ms, w + future)
    ensures var (c2, begin) := ProcessChunk(c, w); Good(all, server, mode, answers, c2, w[begin..] + future)
    ensures future == "" ==> ProcessChunk(c, w).1 > 0
  {
    var after, body := Wire(ms[1..]), Text(ms[0].body);
    var d, pieces, last :| ChunkState(c, d, pieces, last, after, body, w + future);
    var (c2, begin) := ProcessChunk(c, w);
    var rest := w[begin..] + future;
    hide ProcessChunk, Wire, Text, Steady, Good, Header;
    match ChunkOf(c).flag {
      case STARTCHUNK =>
        var d', pieces' := StartChunkKeeps(c, pieces, last, after, body, w, future);
        hide ChunkState;
        assert InChunks(c2, ms, rest);
        StillRunning(all, server, mode, answers, c, ms, c2, rest);
      case DATACHUNK =>
        var d' := DataChunkKeeps(c, d, pieces, last, after, body, w, future);
        hide ChunkState;
        assert InChunks(c2, ms, rest);
        StillRunning(all, server, mode, answers, c, ms, c2, rest);
      case ENDCHUNK =>
        EndChunkKeeps(c, pieces, last, after, body, w, future);
        hide ChunkState;
        assert InChunks(c2, ms, rest);
        StillRunning(all, server, mode, answers, c, ms, c2, rest);
      case FOOTERCHUNK =>
        FooterKeeps(c, after, w, future);
        if begin == 0 {
          assert w[0..] == w;
          StillRunning(all, server, mode, answers, c, ms, c, rest);
        } else {
          BodyIsComplete(c, d, pieces, last, after, body, w + future);
          AfterDone(all, server, mode, answers, c.(chunk := None), ms, ChunkOf(c).buffer);
        }
    }
  }

  lemma BodyIsComplete(c: Client, d: string, pieces: seq<Piece>, last: string, after: string, body: string,
                       rest: string)
    requires ChunkState(c, d, pieces, last, after, body, rest) && ChunkOf(c).flag == FOOTERCHUNK
    ensures (if c.mode.TakeAll? then c.taken + ChunkOf(c).buffer else ChunkOf(c).buffer) == body
  {
    assert Data([]) == "";
    hide WellFormedPieces, ChunkLine, Tail, Data;
    assert Got(c) + ("" + "") == Got(c);
    assert "" + ChunkOf(c).buffer == ChunkOf(c).buffer;
  }

  // ----- one call of OnData between messages

  lemma SteadyStays(c: Client, all: seq<Message>, server: bool, mode: Mode, answers: nat -> bool, ms: seq<Message>,
                    c2: Client)
    requires Readable(server, mode, answers, all) && Steady(c, all, server, mode, answers, ms)
    requires c2.faulted == c.faulted && c2.server == c.server && c2.mode == c.mode
      && c2.answersAtOnce == c.answersAtOnce
    requires c2.requests == c.requests
    requires c2.responses == c.responses
    ensures Steady(c2, all, server, mode, answers, ms)
  {
  }

  /** The header block is complete in the window: what is parsed, and what stands behind it. */
  lemma BlockInWindow(block: string, x: string, w: string, future: string)
    requires EndsFirst(block, HEADER_END)
    requires w + future == block + HEADER_END + x
    requires Find(w, HEADER_END) < |w|
    ensures var i := |block|;
      && Find(w, HEADER_END) == i && i + 4 <= |w|
      && Parse(w) == ParseLines(Split(block, CRLF))
      && w[i + 4..] + future == x
  {
    var i := |block|;
    MatchInWindow(w, future, block, HEADER_END, x);
    hide Find, Occurs, Parse, ParseLines, Split;
    var y := w[i + 4..];
    ParseOfBlock(block, y);
    assert HEADER_END == CRLF + CRLF;
    Sequences.Assoc(block, CRLF, CRLF);
  }

  lemma NoHeaderYet(all: seq<Message>, server: bool, mode: Mode, answers: nat -> bool, c: Client, ms: seq<Message>,
                    w: string, future: string)
    requires Readable(server, mode, answers, all) && Steady(c, all, server, mode, answers, ms) && !c.pause
    requires Idle(c, ms, w + future) && ms != []
    requires Find(w, HEADER_END) == |w|
    ensures OnDataStep(c, w) == (c, 0) && Good(all, server, mode, answers, c, w + future)
  {
    hide Find, AfterHeader, Wire, Readable;
    StillRunning(all, server, mode, answers, c, ms, c, w + future);
  }

  /** The state behind the header block of m, before its body is looked at. */
  lemma HeaderIsRead(c: Client, m: Message, server: bool)
    requires Announces(server, m) && c.server == server && !c.chunked
    ensures var c1 := AtHeader(c, Header(m), |m.block|);
      && c1.finHeader && c1.header == Some(Header(m))
      && (m.body.NoBody? ==> c1.bytesLeft == 0)
      && (m.body.Sized? ==> c1.bytesLeft == |m.body.text| > 0 && !c1.chunked)
      && (m.body.Chunks? ==> c1.bytesLeft != 0 && c1.chunked)
  {
    hide FramingOf, WellFormedPieces, ChunkLine, EndsFirst, ParseLines;
  }

  lemma AfterChunkedHeader(all: seq<Message>, server: bool, mode: Mode, answers: nat -> bool, c: Client,
                           ms: seq<Message>, i: nat, y: string, future: string)
    requires Readable(server, mode, answers, all) && Steady(c, all, server, mode, answers, ms) && ms != [] && !c.pause
    requires ms[0].body.Chunks? && ms[0] in all && c.chunked && c.taken == "" && c.chunk.None?
    requires c.finHeader && c.header == Some(Header(ms[0])) && c.bytesLeft != 0
    requires y + future == WireBody(ms[0].body) + Wire(ms[1..])
    ensures var (c2, begin) := AfterHeader(c, Header(ms[0]), i, y);
      i + 4 <= begin <= i + 4 + |y| && Good(all, server, mode, answers, c2, y[begin - i - 4..] + future)
  {
    var p, after := Header(ms[0]), Wire(ms[1..]);
    var pieces, last, body := ms[0].body.pieces, ms[0].body.last, Text(ms[0].body);
    hide Readable, Steady, Good, Announces, Header, Wire, WireBody, Text, ChunkState;
    ChunkedMessage(all, server, mode, answers, c, ms);
    ChunksBegin(c, pieces, last, after, y + future);
    var d, pieces' := StartChunkKeeps(c, pieces, last, after, body, y, future);
    var (c1, zero) := ProcessChunk(c, y);
    ChunkedHeaderCall(c, p, i, y);
    hide ProcessChunk, AfterHeader;
    assert InChunks(c1, ms, y[zero..] + future);
    StillRunning(all, server, mode, answers, c, ms, c1, y[zero..] + future);
  }

  /** What is known of the chunked message that comes next. */
  lemma ChunkedMessage(all: seq<Message>, server: bool, mode: Mode, answers: nat -> bool, c: Client, ms: seq<Message>)
    requires Readable(server, mode, answers, all) && Steady(c, all, server, mode, answers, ms) && ms != []
    requires ms[0].body.Chunks? && ms[0] in all
    ensures ParseLines(Split(ms[0].block, CRLF)).Parsed? && |Header(ms[0]).version| <= 3
    ensures WellFormedPieces(ms[0].body.pieces) && ChunkLine(ms[0].body.last, 0)
    ensures c.server ==> !c.answersAtOnce(|c.responses|)
  {
    assert Announces(server, ms[0]);
    assert ms[0] == all[|c.responses|];
    hide WellFormedPieces, ChunkLine, EndsFirst, FramingOf;
  }

  lemma ChunkedHeaderCall(c: Client, p: Packet, i: nat, y: string)
    requires c.chunked && c.bytesLeft != 0 && c.header == Some(p) && |p.version| <= 3
    requires var c1 := ProcessChunk(c, y).0; c1 == c.(chunk := c1.chunk)
    ensures AfterHeader(c, p, i, y) == (ProcessChunk(c, y).0, i + 4 + ProcessChunk(c, y).1)
  {
    hide ProcessChunk;
  }

  lemma ChunksBegin(c: Client, pieces: seq<Piece>, last: string, after: string, rest: string)
    requires WellFormedPieces(pieces) && ChunkLine(last, 0) && c.taken == "" && c.chunk.None?
    requires rest == WireBody(Chunks(pieces, last)) + after
    ensures ChunkState(c, "", pieces, last, after, Data(pieces), rest)
    ensures Text(Chunks(pieces, last)) == Data(pieces)
  {
    hide WellFormedPieces, ChunkLine, WirePieces, Data;
    assert Got(c) == "" + "";
    assert "" + "" + ("" + Data(pieces)) == Data(pieces);
    Sequences.Assoc(last + CRLF, CRLF, after);
    Sequences.Assoc(WirePieces(pieces), last + CRLF + CRLF, after);
  }

  lemma AfterHeaderKeeps(all: seq<Message>, server: bool, mode: Mode, answers: nat -> bool, c: Client,
                         ms: seq<Message>, i: nat, y: string, future: string)
    requires Readable(server, mode, answers, all) && Steady(c, all, server, mode, answers, ms) && ms != [] && !c.pause
    requires ms[0] in all && c.taken == "" && c.chunk.None? && c.finHeader && c.header == Some(Header(ms[0]))
    requires match ms[0].body
             case NoBody => c.bytesLeft == 0
             case Sized(text) => c.bytesLeft == |text| > 0 && !c.chunked
             case Chunks(_, _) => c.bytesLeft != 0 && c.chunked
    requires y + future == WireBody(ms[0].body) + Wire(ms[1..])
    ensures var (c2, begin) := AfterHeader(c, Header(ms[0]), i, y);
      i + 4 <= begin <= i + 4 + |y| && Good(all, server, mode, answers, c2, y[begin - i - 4..] + future)
  {
    var p := Header(ms[0]);
    hide Steady, Good, Wire, Announces;
    match ms[0].body {
      case NoBody =>
        hide Respond, FinishedResponse, Header;
        assert WireBody(ms[0].body) + Wire(ms[1..]) == Wire(ms[1..]);
        assert y[0..] == y && AfterHeader(c, p, i, y) == (FinishedResponse(Respond(c, "", true).0), i + 4);
        hide AfterHeader;
        EmptyBody(c, mode);
        AfterDone(all, server, mode, answers, c, ms, "");
      case Sized(text) =>
        hide AfterHeader, Header;
        AfterSizedHeader(all, server, mode, answers, c, ms, i, text, y, future);
      case Chunks(_, _) =>
        hide AfterHeader, Header;
        AfterChunkedHeader(all, server, mode, answers, c, ms, i, y, future);
    }
  }

  lemma EmptyBody(c: Client, mode: Mode)
    requires c.taken == ""
    ensures (if mode.TakeAll? then c.taken + "" else "") == Text(NoBody)
  {
  }

  /** The window shows the whole header block. */
  lemma OnHeaderFound(all: seq<Message>, server: bool, mode: Mode, answers: nat -> bool, c: Client, ms: seq<Message>,
                      w: string, future: string)
    requires Readable(server, mode, answers, all) && Steady(c, all, server, mode, answers, ms) && !c.pause
    requires Idle(c, ms, w + future) && ms != [] && ms[0] in all && Find(w, HEADER_END) < |w|
    ensures var (c2, begin) := OnDataStep(c, w);
      begin > 0 && Good(all, server, mode, answers, c2, w[begin..] + future)
  {
    var m, after := ms[0], Wire(ms[1..]);
    assert Announces(server, m);
    var i, x, p := |m.block|, WireBody(m.body) + after, Header(m);
    BlockInWindow(m.block, x, w, future);
    HeaderIsRead(c, m, server);
    HeaderCall(c, m, w);
    var y, c1 := w[i + 4..], AtHeader(c, p, i);
    hide Find, Parse, OnDataStep, FramingOf, Readable, Wire, Announces;
    SteadyStays(c, all, server, mode, answers, ms, c1);
    assert c1.taken == "" && c1.chunk.None? && !c1.pause;
    hide Steady, Good, AfterHeader, AtHeader, Header, Idle;
    AfterHeaderKeeps(all, server, mode, answers, c1, ms, i, y, future);
    Sequences.DropDrop(w, i + 4, AfterHeader(c1, p, i, y).1 - i - 4);
  }

  lemma OnHeaderKeeps(all: seq<Message>, server: bool, mode: Mode, answers: nat -> bool, c: Client, ms: seq<Message>,
                      w: string, future: string)
    requires Readable(server, mode, answers, all) && Steady(c, all, server, mode, answers, ms) && !c.pause
    requires Idle(c, ms, w + future) && ms != [] && ms[0] in all
    ensures var (c2, begin) := OnDataStep(c, w); Good(all, server, mode, answers, c2, w[begin..] + future)
    ensures future == "" ==> OnDataStep(c, w).1 > 0
  {
    if Find(w, HEADER_END) < |w| {
      OnHeaderFound(all, server, mode, answers, c, ms, w, future);
    } else {
      NoHeaderYet(all, server, mode, answers, c, ms, w, future);
      assert w[0..] == w;
      assert future != "" by { PartialHeader(ms[0], server, Wire(ms[1..]), w, future); }
    }
    hide OnDataStep, Good;
  }

  lemma PartialHeader(m: Message, server: bool, after: string, w: string, future: string)
    requires Announces(server, m)
    requires w + future == m.block + HEADER_END + (WireBody(m.body) + after)
    requires Find(w, HEADER_END) == |w|
    ensures future != ""
  {
    MatchInWhole(m.block, HEADER_END, WireBody(m.body) + after);
    assert future == "" ==> w + future == w;
  }

  lemma HeaderCall(c: Client, m: Message, w: string)
    requires !c.faulted && (c.server || c.requests > 0) && !c.finHeader
    requires ParseLines(Split(m.block, CRLF)).Parsed?
    requires Find(w, HEADER_END) == |m.block| && |m.block| + 4 <= |w| && Parse(w) == Parsed(Header(m))
    ensures OnDataStep(c, w) == AfterHeader(AtHeader(c, Header(m), |m.block|), Header(m), |m.block|, w[|m.block| + 4..])
  {
    hide Find, Parse, AfterHeader, AtHeader, Header;
  }

  // ----- the theorems

  lemma OneCall(all: seq<Message>, server: bool, mode: Mode, answers: nat -> bool, c: Client, w: string, future: string)
    requires Readable(server, mode, answers, all) && Running(all, server, mode, answers, c, w + future) && w != ""
    ensures var (c2, begin) := OnDataStep(c, w); Good(all, server, mode, answers, c2, w[begin..] + future)
    ensures future == "" ==> OnDataStep(c, w).1 > 0
  {
    var ms := all[|c.responses|..];
    assert ms != [] by {
      assert Wire([]) == "";
    }
    assert ms[0] == all[|c.responses|];
    hide OnDataStep, Good, Steady, Readable;
    if Idle(c, ms, w + future) {
      OnHeaderKeeps(all, server, mode, answers, c, ms, w, future);
    } else if InSizedBody(c, ms, w + future) {
      OnSizedBodyKeeps(all, server, mode, answers, c, ms, ms[0].body.text, w, future);
    } else {
      hide InChunks, Wire;
      ChunkCall(all, server, mode, answers, c, ms, w, future);
    }
  }

  lemma ChunkCall(all: seq<Message>, server: bool, mode: Mode, answers: nat -> bool, c: Client, ms: seq<Message>,
                  w: string, future: string)
    requires Readable(server, mode, answers, all) && Steady(c, all, server, mode, answers, ms) && !c.pause && w != ""
    requires InChunks(c, ms, w + future)
    ensures var (c2, begin) := OnDataStep(c, w); Good(all, server, mode, answers, c2, w[begin..] + future)
    ensures future == "" ==> OnDataStep(c, w).1 > 0
  {
    OnChunksKeeps(all, server, mode, answers, c, ms, w, future);
    hide Good, ProcessChunk, Readable;
    assert OnDataStep(c, w) == ProcessChunk(c, w);
  }

  /** The message reader keeps the stream invariant, consumes something of any complete rest, and is
      ready to go on when a paused request has been answered. */
  lemma ReaderKeeps(all: seq<Message>, server: bool, mode: Mode, answers: nat -> bool)
    requires Readable(server, mode, answers, all)
    ensures Keeps(OnData, Reading(all, server, mode, answers))
    ensures Progresses(OnData, Reading(all, server, mode, answers))
    ensures Resumes(Answer, Reading(all, server, mode, answers))
  {
    var inv := Reading(all, server, mode, answers);
    forall u: Client, window: string, future: string | inv.running(u, window + future) && window != ""
      ensures KeptBy(OnData(u, window), inv, window, future)
    {
      OneCall(all, server, mode, answers, u, window, future);
    }
    forall u: Client, window: string | inv.running(u, window) && window != ""
      ensures OnData(u, window).begin > 0
    {
      assert window + "" == window;
      OneCall(all, server, mode, answers, u, window, "");
    }
    forall u: Client, rest: string | inv.parked(u, rest) ensures inv.running(Answer(u), rest) {
      ResumeRuns(all, server, mode, answers, u, rest);
    }
  }

  lemma ResumeRuns(all: seq<Message>, server: bool, mode: Mode, answers: nat -> bool, c: Client, rest: string)
    requires Readable(server, mode, answers, all) && Parked(all, server, mode, answers, c, rest)
    ensures Running(all, server, mode, answers, Answer(c), rest)
  {
    hide Wire, Readable, Expected;
  }

  /** A connection whose peer will send exactly the given messages. */
  function Start(all: seq<Message>, server: bool, requests: nat, mode: Mode, answers: nat -> bool): World<Client> {
    World(Socket(Fresh(server, requests, mode, answers), "", 0, false), Wire(all))
  }

  lemma StartHolds(all: seq<Message>, server: bool, requests: nat, mode: Mode, answers: nat -> bool)
    requires Readable(server, mode, answers, all) && (server || requests >= |all|)
    ensures Reading(all, server, mode, answers).HoldsOf(Start(all, server, requests, mode, answers))
  {
    assert Expected(all)[..0] == [];
    hide Wire, Readable, Expected;
    assert ""[0..] + Wire(all) == Wire(all);
    assert all[0..] == all;
  }

  /** Safety. However the stream of the messages is fragmented, and whenever paused requests are
      answered, the done calls are always those of the first messages, in order and each with its own
      header and body; nothing is consumed that they do not account for; and once a connection is
      between messages, what is unread or still to come is exactly the remaining messages. */
  lemma EveryFragmentation(all: seq<Message>, server: bool, requests: nat, mode: Mode, answers: nat -> bool,
                           events: seq<Event>)
    requires Readable(server, mode, answers, all) && (server || requests >= |all|)
    ensures var w := Run(OnData, Answer, Start(all, server, requests, mode, answers), events);
      var c := w.socket.user;
      && !c.faulted && w.socket.InBounds()
      && c.responses <= Expected(all)
      && ((c.pause || !c.finHeader) && w.socket.pause == c.pause ==>
            w.socket.Unread() + w.incoming == Wire(all[|c.responses|..]))
      && (w.incoming == "" ==> (c.responses == Expected(all) <==> w.socket.Unread() == ""))
  {
    ReaderKeeps(all, server, mode, answers);
    StartHolds(all, server, requests, mode, answers);
    RunKeeps(OnData, Answer, Reading(all, server, mode, answers), Start(all, server, requests, mode, answers), events);
    var w := Run(OnData, Answer, Start(all, server, requests, mode, answers), events);
    hide Run, Keeps, Progresses, Resumes;
    WhatHolds(all, server, mode, answers, w);
  }

  lemma WhatHolds(all: seq<Message>, server: bool, mode: Mode, answers: nat -> bool, w: World<Client>)
    requires Readable(server, mode, answers, all) && Reading(all, server, mode, answers).HoldsOf(w)
    ensures var c := w.socket.user;
      && !c.faulted && w.socket.InBounds()
      && c.responses <= Expected(all)
      && ((c.pause || !c.finHeader) && w.socket.pause == c.pause ==>
            w.socket.Unread() + w.incoming == Wire(all[|c.responses|..]))
      && (w.incoming == "" ==> (c.responses == Expected(all) <==> w.socket.Unread() == ""))
  {
    var c, rest := w.socket.user, w.socket.Unread() + w.incoming;
    var ms := all[|c.responses|..];
    hide Readable;
    assert c.responses == Expected(all) <==> ms == [] by {
      assert |c.responses| == |all| ==> Expected(all)[..|all|] == Expected(all);
    }
    EmptyRest(c, ms, rest);
    hide Wire, Expected;
    assert w.incoming == "" ==> rest == w.socket.Unread();
  }

  /** Only behind the last message is nothing left. */
  lemma EmptyRest(c: Client, ms: seq<Message>, rest: string)
    requires rest == Wire(ms) || Idle(c, ms, rest) || InSizedBody(c, ms, rest) || InChunks(c, ms, rest)
    ensures rest == "" <==> ms == []
  {
    if InChunks(c, ms, rest) {
      var d, pieces, last :| ChunkState(c, d, pieces, last, Wire(ms[1..]), Text(ms[0].body), rest);
      hide Wire, Text, Header;
      SomeChunkLeft(c, d, pieces, last, Wire(ms[1..]), Text(ms[0].body), rest);
    } else if ms != [] {
      hide InChunks;
      assert |Wire(ms)| >= |HEADER_END|;
      hide Wire;
    }
  }

  lemma SomeChunkLeft(c: Client, d: string, pieces: seq<Piece>, last: string, after: string, body: string, rest: string)
    requires ChunkState(c, d, pieces, last, after, body, rest)
    ensures rest != ""
  {
    hide WirePieces, Data, WellFormedPieces, ChunkLine;
    var tail := WirePieces(pieces) + (last + CRLF + (CRLF + after));
    assert |tail| >= |last + CRLF + (CRLF + after)| >= |CRLF|;
  }

  // ----- when every message arrives

  /** What one call adds: nothing, or one done call, and after a done call the connection is paused exactly
      if it belongs to a server whose owner does not answer inside the call. */
  ghost predicate AddsOne(c: Client, c2: Client) {
    && (c2.responses == c.responses || |c2.responses| == |c.responses| + 1)
    && (c2.responses == c.responses ==> !c2.pause)
    && (c2.responses != c.responses ==> (c2.pause <==> c.server && !c.answersAtOnce(|c.responses|)))
    && (!c.server && c.requests > 0 ==> c2.requests + |c2.responses| == c.requests + |c.responses|)
  }

  lemma DoneAddsOne(c: Client, data: string)
    requires !c.pause && c.header.Some?
    ensures AddsOne(c, FinishedResponse(Respond(c, data, true).0))
    ensures AddsOne(c, FinishedResponse(Respond(c, data, true).0.(chunk := None)))
  {
  }

  lemma PartAddsNothing(c: Client, data: string)
    requires !c.pause
    ensures var c1 := Respond(c, data, false).0;
      c1.responses == c.responses && !c1.pause && c1.requests == c.requests
  {
  }

  lemma ChunkAddsOne(c: Client, w: string)
    requires !c.pause && c.header.Some?
    ensures AddsOne(c, ProcessChunk(c, w).0)
  {
    hide Find, Compact, ChunkSize, Respond, FinishedResponse;
    var chunk := ChunkOf(c);
    match chunk.flag {
      case STARTCHUNK =>
      case ENDCHUNK =>
      case DATACHUNK =>
        if chunk.bytesLeft >= 0 {
          PartAddsNothing(c, chunk.buffer + w[..if |w| >= chunk.bytesLeft then chunk.bytesLeft else |w|]);
        }
      case FOOTERCHUNK =>
        DoneAddsOne(c, chunk.buffer);
    }
  }

  lemma HeaderAddsOne(c: Client, p: Packet, i: nat, body: string)
    requires !c.pause && c.header.Some?
    ensures AddsOne(c, AfterHeader(c, p, i, body).0)
  {
    hide ProcessChunk, Respond, FinishedResponse;
    DoneAddsOne(c, "");
    ChunkAddsOne(c, body);
    PartAddsNothing(c, body);
    if 0 <= c.bytesLeft <= |body| {
      DoneAddsOne(c, body[..c.bytesLeft]);
    }
  }

  lemma StepAddsOne(c: Client, w: string)
    requires !c.pause && (c.finHeader ==> c.header.Some?)
    ensures AddsOne(c, OnDataStep(c, w).0) && (!c.server && c.requests == 0 ==> OnDataStep(c, w).0 == c)
  {
    hide Find, Parse, FramingOf, ProcessChunk, AfterHeader, Respond, FinishedResponse;
    if c.finHeader {
      ChunkAddsOne(c, w);
      PartAddsNothing(c, w);
      if 0 <= c.bytesLeft <= |w| {
        DoneAddsOne(c, w[..c.bytesLeft]);
      }
    } else {
      var i := Find(w, HEADER_END);
      if i < |w| && Parse(w).Parsed? {
        HeaderAddsOne(AtHeader(c, Parse(w).packet, i), Parse(w).packet, i, w[i + 4..]);
      }
    }
  }
  lemma HeaderIsKnown(all: seq<Message>, server: bool, mode: Mode, answers: nat -> bool, c: Client, rest: string)
    requires Readable(server, mode, answers, all) && Running(all, server, mode, answers, c, rest)
    ensures !c.pause && c.server == server && c.answersAtOnce == answers && (c.finHeader ==> c.header.Some?)
  {
    hide Wire, Header, ChunkState, Readable, Expected;
  }

  /** Nothing is left when a connection pauses. */
  ghost function Delivering(all: seq<Message>, server: bool, mode: Mode, answers: nat -> bool): Invariant<Client>
    requires Readable(server, mode, answers, all)
  {
    Invariant((c, rest) => Running(all, server, mode, answers, c, rest),
              (c, rest) => Parked(all, server, mode, answers, c, rest) && server && rest == "")
  }

  lemma OneCallDelivers(all: seq<Message>, server: bool, mode: Mode, answers: nat -> bool, c: Client, w: string,
                        future: string)
    requires Readable(server, mode, answers, all) && Running(all, server, mode, answers, c, w + future) && w != ""
    requires server ==> forall n: nat :: n + 1 < |all| ==> answers(n)
    ensures KeptBy(OnData(c, w), Delivering(all, server, mode, answers), w, future)
  {
    OneCall(all, server, mode, answers, c, w, future);
    HeaderIsKnown(all, server, mode, answers, c, w + future);
    StepAddsOne(c, w);
    hide OnDataStep, Running, Steady, Readable, Expected;
    var c2 := OnDataStep(c, w).0;
    if c2.pause {
      assert |c.responses| + 1 == |c2.responses| <= |all| && !answers(|c.responses|);
      assert all[|c2.responses|..] == [];
    }
  }

  lemma DelivererKeeps(all: seq<Message>, server: bool, mode: Mode, answers: nat -> bool)
    requires Readable(server, mode, answers, all)
    requires server ==> forall n: nat :: n + 1 < |all| ==> answers(n)
    ensures var inv := Delivering(all, server, mode, answers);
      Keeps(OnData, inv) && Progresses(OnData, inv) && Resumes(Answer, inv) && ParksAtEnd(inv)
  {
    var inv := Delivering(all, server, mode, answers);
    forall u: Client, window: string, future: string | inv.running(u, window + future) && window != ""
      ensures KeptBy(OnData(u, window), inv, window, future)
    {
      OneCallDelivers(all, server, mode, answers, u, window, future);
    }
    ReaderKeeps(all, server, mode, answers);
    forall u: Client, rest: string | inv.parked(u, rest) ensures inv.running(Answer(u), rest) {
      ResumeRuns(all, server, mode, answers, u, rest);
    }
    hide Running, Parked, KeptBy;
  }

  /** Completeness. On a client connection, and on a server connection whose owner answers every request but
      perhaps the last inside its done call, the last byte of the stream brings the last done call: exactly
      one for each message, and an empty buffer. */
  lemma EveryMessageArrives(all: seq<Message>, server: bool, requests: nat, mode: Mode, answers: nat -> bool,
                            events: seq<Event>)
    requires Readable(server, mode, answers, all) && (server || requests >= |all|)
    requires server ==> forall n: nat :: n + 1 < |all| ==> answers(n)
    ensures var w := Run(OnData, Answer, Start(all, server, requests, mode, answers), events);
      && (w.socket.pause ==> server && w.socket.user.responses == Expected(all))
      && (w.incoming == "" ==> w.socket.user.responses == Expected(all) && w.socket.buffer == "")
  {
    var inv, start := Delivering(all, server, mode, answers), Start(all, server, requests, mode, answers);
    DelivererKeeps(all, server, mode, answers);
    StartHolds(all, server, requests, mode, answers);
    assert inv.HoldsOf(start) && start.socket.buffer == "";
    RunDrains(OnData, Answer, inv, start, events);
    EveryFragmentation(all, server, requests, mode, answers, events);
    hide Run, Keeps, Progresses, Resumes, ParksAtEnd, Running;
  }

  /** A client has a request less for every done call. */
  ghost function Counting(all: seq<Message>, mode: Mode, answers: nat -> bool, requests: nat): Invariant<Client>
    requires Readable(false, mode, answers, all)
  {
    Invariant((c, rest) => Running(all, false, mode, answers, c, rest) && c.requests + |c.responses| == requests,
              (c, rest) => false)
  }

  lemma OneCallCounts(all: seq<Message>, mode: Mode, answers: nat -> bool, requests: nat, c: Client, w: string,
                      future: string)
    requires Readable(false, mode, answers, all) && w != ""
    requires Running(all, false, mode, answers, c, w + future) && c.requests + |c.responses| == requests
    ensures KeptBy(OnData(c, w), Counting(all, mode, answers, requests), w, future)
  {
    hide OnDataStep, Running, Parked, Readable;
    OneCall(all, false, mode, answers, c, w, future);
    HeaderIsKnown(all, false, mode, answers, c, w + future);
    StepAddsOne(c, w);
  }

  /** The queue of requests shrinks by one with every response, so the client is never ahead of what it asked for. */
  lemma RequestsAreCounted(all: seq<Message>, requests: nat, mode: Mode, answers: nat -> bool, events: seq<Event>)
    requires Readable(false, mode, answers, all) && requests >= |all|
    ensures var c := Run(OnData, Answer, Start(all, false, requests, mode, answers), events).socket.user;
      c.requests + |c.responses| == requests
  {
    var inv, start := Counting(all, mode, answers, requests), Start(all, false, requests, mode, answers);
    ReaderKeeps(all, false, mode, answers);
    forall u: Client, window: string, future: string | inv.running(u, window + future) && window != ""
      ensures KeptBy(OnData(u, window), inv, window, future)
    {
      OneCallCounts(all, mode, answers, requests, u, window, future);
    }
    StartHolds(all, false, requests, mode, answers);
    hide Running, Parked, KeptBy, Readable, Wire;
    assert inv.HoldsOf(start);
    RunKeeps(OnData, Answer, inv, start, events);
  }

  /** A connection of a server that does not answer request n inside its done call: up to that call, and
      paused behind it. */
  ghost function Stopping(all: seq<Message>, mode: Mode, answers: nat -> bool, n: nat): Invariant<Client>
    requires Readable(true, mode, answers, all)
  {
    Invariant((c, rest) => Running(all, true, mode, answers, c, rest) && |c.responses| <= n,
              (c, rest) => Parked(all, true, mode, answers, c, rest) && 0 < |c.responses| <= n + 1
                           && !answers(|c.responses| - 1))
  }

  lemma StopperKeeps(all: seq<Message>, mode: Mode, answers: nat -> bool, n: nat)
    requires Readable(true, mode, answers, all) && !answers(n)
    ensures Keeps(OnData, Stopping(all, mode, answers, n)) && Progresses(OnData, Stopping(all, mode, answers, n))
  {
    var inv := Stopping(all, mode, answers, n);
    ReaderKeeps(all, true, mode, answers);
    forall u: Client, window: string, future: string | inv.running(u, window + future) && window != ""
      ensures KeptBy(OnData(u, window), inv, window, future)
    {
      OneCallStops(all, mode, answers, n, u, window, future);
    }
    hide Running, Parked, KeptBy;
  }

  lemma OneCallStops(all: seq<Message>, mode: Mode, answers: nat -> bool, n: nat, c: Client, w: string, future: string)
    requires Readable(true, mode, answers, all) && !answers(n) && w != ""
    requires Running(all, true, mode, answers, c, w + future) && |c.responses| <= n
    ensures KeptBy(OnData(c, w), Stopping(all, mode, answers, n), w, future)
  {
    hide OnDataStep, Running, Parked, Readable;
    OneCall(all, true, mode, answers, c, w, future);
    HeaderIsKnown(all, true, mode, answers, c, w + future);
    StepAddsOne(c, w);
  }

  lemma StoppingHolds(all: seq<Message>, mode: Mode, answers: nat -> bool, n: nat, w: World<Client>)
    requires Readable(true, mode, answers, all) && Stopping(all, mode, answers, n).HoldsOf(w)
    ensures Reading(all, true, mode, answers).HoldsOf(w) && |w.socket.user.responses| <= n + 1
    ensures w.socket.pause ==> 0 < |w.socket.user.responses| && !answers(|w.socket.user.responses| - 1)
    ensures !w.socket.pause ==> |w.socket.user.responses| <= n
  {
    hide Running, Parked;
  }

  lemma StopperStarts(all: seq<Message>, mode: Mode, answers: nat -> bool, n: nat)
    requires Readable(true, mode, answers, all) && all != []
    ensures Stopping(all, mode, answers, n).HoldsOf(Start(all, true, 0, mode, answers)) && Wire(all) != ""
  {
    StartHolds(all, true, 0, mode, answers);
    assert |Wire(all)| >= |HEADER_END|;
    hide Wire, Running, Readable;
  }

  /** The run: everything arrives in one read, and then the paused request is answered. */
  lemma ReadThenResume(all: seq<Message>, mode: Mode, answers: nat -> bool, n: nat) returns (w: World<Client>)
    requires Readable(true, mode, answers, all) && !answers(n) && n + 1 < |all|
    ensures w == Step(OnData, Answer, Start(all, true, 0, mode, answers), Read(|Wire(all)|))
    ensures Stopping(all, mode, answers, n).HoldsOf(w) && w.incoming == "" && (w.socket.pause || w.socket.buffer == "")
  {
    hide Wire, Running, Parked, Keeps, Progresses, Stopping, Readable;
    var start, inv := Start(all, true, 0, mode, answers), Stopping(all, mode, answers, n);
    var wire := Wire(all);
    StopperKeeps(all, mode, answers, n);
    StopperStarts(all, mode, answers, n);
    assert wire[..|wire|] == wire && wire[|wire|..] == "" && wire + "" == wire;
    assert Redeliver(OnData, start.socket) == start.socket;
    ReceiveKeeps(OnData, inv, start.socket, wire, "");
    w := World(Receive(OnData, start.socket, wire), "");
  }

  /** A message that follows one the owner answers later may be left behind: it has arrived, the connection
      is not paused, and yet no event makes the reader look at it. */
  lemma RequestIsLeftBehind(all: seq<Message>, mode: Mode, answers: nat -> bool, n: nat, events: seq<Event>)
    requires Readable(true, mode, answers, all) && !answers(n) && n + 1 < |all|
    ensures var run := [Read(|Wire(all)|), Resume] + events;
      var w := Run(OnData, Answer, Start(all, true, 0, mode, answers), run);
      && !w.socket.pause && w.incoming == "" && w.socket.buffer != ""
      && |w.socket.user.responses| <= n + 1
      && ((forall k: nat :: k < n ==> answers(k)) ==> |w.socket.user.responses| == n + 1)
  {
    var w1 := ReadThenResume(all, mode, answers, n);
    StoppingHolds(all, mode, answers, n, w1);
    WhatHolds(all, true, mode, answers, w1);
    hide Readable, Stopping, Wire, Running, Parked, Expected, Reading;
    var w2 := Step(OnData, Answer, w1, Resume);
    assert w1.socket.Unread() != "";
    NothingMoreHappens(OnData, Answer, w2, events);
    RunTwo(OnData, Answer, Start(all, true, 0, mode, answers), Read(|Wire(all)|), Resume, events);
  }

  lemma RunTwo(f: Callback<Client>, answer: Client -> Client, w: World<Client>, e1: Event, e2: Event,
               events: seq<Event>)
    ensures Run(f, answer, w, [e1, e2] + events) == Run(f, answer, Step(f, answer, Step(f, answer, w, e1), e2), events)
  {
    var run := [e1, e2] + events;
    assert run[0] == e1 && run[1..] == [e2] + events && run[1..][0] == e2 && run[1..][1..] == events;
  }

  /** Once everything has arrived and no answer is awaited, every message has had its done call. */
  ghost predicate Finishes(all: seq<Message>, mode: Mode, answers: nat -> bool, events: seq<Event>)
    requires Readable(true, mode, answers, all)
  {
    var w := Run(OnData, Answer, Start(all, true, 0, mode, answers), events);
    !w.socket.pause && w.incoming == "" ==> w.socket.user.responses == Expected(all)
  }

  /** On a server connection every run finishes if and only if the owner answers all requests but the last
      inside their done calls. */
  lemma FinishesIff(all: seq<Message>, mode: Mode, answers: nat -> bool)
    requires Readable(true, mode, answers, all)
    ensures (forall events :: Finishes(all, mode, answers, events)) <==> forall n: nat :: n + 1 < |all| ==> answers(n)
  {
    hide Finishes, Readable;
    if forall n: nat :: n + 1 < |all| ==> answers(n) {
      forall events ensures Finishes(all, mode, answers, events) {
        PromptFinishes(all, mode, answers, events);
      }
    } else {
      var n: nat :| n + 1 < |all| && !answers(n);
      LateMayNotFinish(all, mode, answers, n);
    }
  }

  lemma PromptFinishes(all: seq<Message>, mode: Mode, answers: nat -> bool, events: seq<Event>)
    requires Readable(true, mode, answers, all) && forall n: nat :: n + 1 < |all| ==> answers(n)
    ensures Finishes(all, mode, answers, events)
  {
    hide Readable, Run, Wire;
    EveryMessageArrives(all, true, 0, mode, answers, events);
  }

  lemma LateMayNotFinish(all: seq<Message>, mode: Mode, answers: nat -> bool, n: nat)
    requires Readable(true, mode, answers, all) && !answers(n) && n + 1 < |all|
    ensures !Finishes(all, mode, answers, [Read(|Wire(all)|), Resume])
  {
    hide Readable, Run, Wire;
    RequestIsLeftBehind(all, mode, answers, n, []);
    var run := [Read(|Wire(all)|), Resume];
    assert run + [] == run;
  }

  // ----- where the reader does not deliver the messages

  lemma HeaderWindow(c: Client, block: string, p: Packet, body: string)
    requires EndsFirst(block, HEADER_END) && ParseLines(Split(block, CRLF)) == Parsed(p)
    requires !c.faulted && (c.server || c.requests > 0) && !c.finHeader
    ensures OnDataStep(c, block + HEADER_END + body) == AfterHeader(AtHeader(c, p, |block|), p, |block|, body)
  {
    hide Find, Parse, AfterHeader, AtHeader, ParseLines, Split, OnDataStep, EndsFirst, Occurs;
    var w := block + HEADER_END + body;
    MatchInWhole(block, HEADER_END, body);
    assert w + "" == w && w[|block| + 4..] == body && body + "" == body;
    BlockInWindow(block, body, w, "");
    HeaderCall(c, Message(block, NoBody), w);
  }

  /** A message whose header says chunked reaches the chunk decoder exactly when it has no Content-Length or
      one that is not 0, on a server exactly when it has one that is not 0. Otherwise it is finished at its
      header, with an empty body, and the chunks are left to be read as headers. */
  lemma ChunkedIsDecodedIff(c: Client, block: string, p: Packet, body: string)
    requires EndsFirst(block, HEADER_END) && ParseLines(Split(block, CRLF)) == Parsed(p) && FramingOf(p).chunked
    requires !c.faulted && (c.server || c.requests > 0)
    requires !c.finHeader && !c.chunked && c.chunk.None? && c.taken == ""
    ensures var (c2, begin) := OnDataStep(c, block + HEADER_END + body);
      if FramingOf(p).bytesLeft != 0 && (c.server ==> FramingOf(p).bytesLeft != -1) then
        c2.responses == c.responses
      else
        c2.responses == c.responses + [Response(Some(p), "")] && begin == |block| + 4 && !c2.chunk.Some?
  {
    hide OnDataStep, ProcessChunk, FramingOf, EndsFirst, ParseLines, Split, AfterHeader, AtHeader;
    HeaderWindow(c, block, p, body);
    AfterChunkedIff(c, p, |block|, body);
  }

  lemma AfterChunkedIff(c: Client, p: Packet, i: nat, body: string)
    requires FramingOf(p).chunked && !c.chunked && c.chunk.None? && c.taken == ""
    ensures var (c2, begin) := AfterHeader(AtHeader(c, p, i), p, i, body);
      if FramingOf(p).bytesLeft != 0 && (c.server ==> FramingOf(p).bytesLeft != -1) then
        c2.responses == c.responses
      else
        c2.responses == c.responses + [Response(Some(p), "")] && begin == i + 4 && !c2.chunk.Some?
  {
    hide ProcessChunk, FramingOf;
    DecoderStarts(AtHeader(c, p, i), body);
    assert "" + "" == "";
  }

  lemma DecoderStarts(c: Client, body: string)
    requires c.chunk.None?
    ensures ProcessChunk(c, body).0.responses == c.responses
  {
    hide Find, ChunkSize;
  }

  /** A consumer that takes everything and a Content-Length body do not go together: in a window
      that does not complete the body the consumer takes the bytes, but they stay in the buffer. What
      it takes is what is consumed exactly in the completing window. */
  lemma TakenTwice(c: Client, w: string)
    requires c.finHeader && !c.chunked && !c.faulted && (c.server || c.requests > 0)
    requires c.mode.TakeAll? && c.headerLength == 0 && c.bytesLeft > 0 && w != ""
    ensures var (c2, begin) := OnDataStep(c, w);
      var taken := c.bytesLeft - (if |w| >= c.bytesLeft then 0 else c2.bytesLeft);
      begin == taken <==> |w| >= c.bytesLeft
  {
  }

  /** A read whose window the callback leaves alone, or takes as a whole. */
  lemma ReadOnce(c: Client, buffer: string, fragment: string, more: string)
    requires fragment != "" && !OnDataStep(c, buffer + fragment).0.pause
    requires OnDataStep(c, buffer + fragment).1 == 0 || OnDataStep(c, buffer + fragment).1 == |buffer + fragment|
    ensures var (c2, begin) := OnDataStep(c, buffer + fragment);
      Step(OnData, Answer, World(Socket(c, buffer, 0, false), fragment + more), Read(|fragment|))
      == World(Socket(c2, if begin == 0 then buffer + fragment else "", 0, false), more)
  {
    hide OnDataStep;
    Sequences.DropAll(fragment, more);
    var w := buffer + fragment;
    assert Redeliver(OnData, Call(OnData, c, w)) == Call(OnData, c, w);
  }

  /** A window of which the callback leaves a rest, and then takes it. */
  lemma ReadTwice(c: Client, buffer: string, fragment: string)
    requires fragment != "" && !OnDataStep(c, buffer + fragment).0.pause
    requires var (c2, begin) := OnDataStep(c, buffer + fragment);
      0 < begin < |buffer + fragment| && !c2.faulted && !c2.server && c2.requests == 0
    ensures Step(OnData, Answer, World(Socket(c, buffer, 0, false), fragment), Read(|fragment|)).socket.user
      == OnDataStep(c, buffer + fragment).0
  {
    var (c2, begin) := OnDataStep(c, buffer + fragment);
    var w := buffer + fragment;
    assert fragment[..|fragment|] == fragment;
    assert OnDataStep(c2, w[begin..]) == (c2, |w[begin..]|);
    hide OnDataStep;
    var s := Call(OnData, c, w);
    assert Redeliver(OnData, s) == Redeliver(OnData, Call(OnData, c2, w[begin..]));
    assert Redeliver(OnData, Call(OnData, c2, w[begin..])) == Call(OnData, c2, w[begin..]);
  }

  /** A client whose consumer takes everything, one request under way, and a response with a body of x + y. */
  function Waiting(answers: nat -> bool): Client {
    Fresh(false, 1, TakeAll, answers)
  }

  /** When the body arrives as x and then y, behind its header, the consumer makes this of it. */
  lemma TakenInTwoParts(block: string, p: Packet, x: string, y: string, answers: nat -> bool)
    requires EndsFirst(block, HEADER_END) && ParseLines(Split(block, CRLF)) == Parsed(p) && |p.version| <= 3
    requires FramingOf(p) == Framing(false, |x| + |y|) && x != "" && y != ""
    ensures var start := World(Socket(Waiting(answers), "", 0, false), block + HEADER_END + (x + y));
      var w := Run(OnData, Answer, start, [Read(|block| + 4), Read(|x|), Read(|y|)]);
      w.socket.user.responses == [Response(Some(p), x + (x + y)[..|y|])]
  {
    var c := Waiting(answers);
    var c1 := AtHeader(c, p, |block|).(headerLength := 0);
    HeaderWindow(c, block, p, "");
    assert block + HEADER_END + "" == block + HEADER_END == "" + (block + HEADER_END);
    assert OnDataStep(c, block + HEADER_END) == (c1, |block + HEADER_END|) by {
      HeaderAlone(c, p, |block|);
    }
    TakesFirst(c1, x, |y|);
    TakesAgain(c1.(taken := x, bytesLeft := |y|), x + y, p);
    hide OnDataStep, AtHeader;
    assert "" + x == x;
    ReadOnce(c, "", block + HEADER_END, x + y);
    ReadOnce(c1, "", x, y);
    ReadTwice(c1.(taken := x, bytesLeft := |y|), x, y);
    RunThree(Socket(c, "", 0, false), block + HEADER_END + (x + y), Read(|block| + 4), Read(|x|), Read(|y|));
  }

  lemma SameRest(x: string, a: string, b: string)
    ensures x + a == x + b <==> a == b
  {
    assert (x + a)[|x|..] == a && (x + b)[|x|..] == b;
  }

  lemma HeaderAlone(c: Client, p: Packet, i: nat)
    requires c.mode.TakeAll? && c.taken == "" && !c.chunked && |p.version| <= 3
    requires !FramingOf(p).chunked && FramingOf(p).bytesLeft > 0
    ensures AfterHeader(AtHeader(c, p, i), p, i, "") == (AtHeader(c, p, i).(headerLength := 0), i + 4)
  {
    hide FramingOf;
    assert "" + "" == "";
  }

  lemma TakesFirst(c: Client, x: string, n: nat)
    requires c.finHeader && !c.chunked && !c.faulted && !c.server && c.requests > 0 && c.taken == ""
    requires c.mode.TakeAll? && c.headerLength == 0 && c.bytesLeft == |x| + n && n > 0
    ensures OnDataStep(c, x) == (c.(taken := x, bytesLeft := n), 0)
  {
    assert "" + x == x;
  }

  lemma TakesAgain(c: Client, w: string, p: Packet)
    requires c.finHeader && !c.chunked && !c.faulted && !c.server && c.requests == 1 && !c.pause
    requires c.mode.TakeAll? && c.headerLength == 0 && 0 < c.bytesLeft < |w| && c.header == Some(p) && c.responses == []
    ensures var (c2, begin) := OnDataStep(c, w);
      && c2.responses == [Response(Some(p), c.taken + w[..c.bytesLeft])] && begin == c.bytesLeft
      && !c2.faulted && !c2.server && c2.requests == 0 && !c2.pause
  {
  }

  lemma RunThree(s: Socket<Client>, incoming: string, e1: Event, e2: Event, e3: Event)
    ensures Run(OnData, Answer, World(s, incoming), [e1, e2, e3])
      == Step(OnData, Answer, Step(OnData, Answer, Step(OnData, Answer, World(s, incoming), e1), e2), e3)
  {
    hide Step;
    RunTwo(OnData, Answer, World(s, incoming), e1, e2, [e3]);
    assert [e1, e2] + [e3] == [e1, e2, e3] && [e3][1..] == [];
    var w := Step(OnData, Answer, Step(OnData, Answer, World(s, incoming), e1), e2);
    assert Run(OnData, Answer, w, [e3]) == Run(OnData, Answer, Step(OnData, Answer, w, e3), []);
  }

  /** That is the body exactly when the body starts with y. */
  lemma TakenRightIff(block: string, p: Packet, x: string, y: string, answers: nat -> bool)
    requires EndsFirst(block, HEADER_END) && ParseLines(Split(block, CRLF)) == Parsed(p) && |p.version| <= 3
    requires FramingOf(p) == Framing(false, |x| + |y|) && x != "" && y != ""
    ensures var start := World(Socket(Waiting(answers), "", 0, false), block + HEADER_END + (x + y));
      var w := Run(OnData, Answer, start, [Read(|block| + 4), Read(|x|), Read(|y|)]);
      w.socket.user.responses == [Response(Some(p), x + y)] <==> y <= x + y
  {
    hide Run, EndsFirst, FramingOf, ParseLines, Split;
    TakenInTwoParts(block, p, x, y, answers);
    SameRest(x, (x + y)[..|y|], y);
  }

  /** Of "abcd" in two halves the consumer makes "abab". */
  lemma TakeAllMisreads(block: string, p: Packet, answers: nat -> bool)
    requires EndsFirst(block, HEADER_END) && ParseLines(Split(block, CRLF)) == Parsed(p) && |p.version| <= 3
    requires FramingOf(p) == Framing(false, 4)
    ensures var start := World(Socket(Waiting(answers), "", 0, false), block + HEADER_END + "abcd");
      var w := Run(OnData, Answer, start, [Read(|block| + 4), Read(2), Read(2)]);
      w.socket.user.responses == [Response(Some(p), "abab")]
  {
    hide Run, EndsFirst, FramingOf, ParseLines, Split;
    TakenInTwoParts(block, p, "ab", "cd", answers);
    assert "ab" + "cd" == "abcd" && "ab" + "abcd"[..2] == "abab";
  }

  /** The compaction of the chunk buffer keeps the unread bytes, for all contents, exactly when the
      consumer took nothing, or took everything and nothing was held before. */
  lemma CompactionKeeps(n: nat, i: nat, bp: nat)
    requires 0 < i <= n && bp <= n
    ensures (forall buffer: string :: |buffer| == n ==> Compact(buffer, i, bp) == Some(buffer[bp..])) <==>
      bp == 0 || (bp == i && i == n)
  {
    if bp == 0 {
      assert forall buffer: string :: |buffer| == n ==> buffer[0..] == buffer;
    } else if bp == i && i == n {
      assert forall buffer: string :: |buffer| == n ==> buffer[n..] == "";
    } else {
      var buffer := seq(n, k => if k == 0 then 'x' else 'y');
      assert |buffer| == n;
      if bp < i && bp != i {
        assert Compact(buffer, i, bp).value[0] == buffer[0] == 'x';
        assert buffer[bp..][0] == 'y';
      } else if bp == i {
        assert |buffer[bp..]| == n - bp > 0;
      }
      assert Compact(buffer, i, bp) != Some(buffer[bp..]);
    }
  }
}
