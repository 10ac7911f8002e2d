/** Messages in the words of RFC 7230, sections 3.2, 3.3 and 4.1: header names in any case, lengths as
    numerals by position, chunk size lines with extensions; and the proof that the reader understands them. */
module Grammar {
  import opened Options
  import opened Numbers
  import opened Splitter
  import opened PacketHeader
  import opened ReceiveLoop
  import opened WebClient
  import opened MessageFraming
  import Sequences

  const UPPER_LETTERS := "ABCDEFGHIJKLMNOPQRSTUVWXYZ"
  const LOWER_LETTERS := "abcdefghijklmnopqrstuvwxyz"

  predicate SameLetter(c: char, d: char) {
    || c == d
    || exists v :: 0 <= v < 26 &&
         ((c == UPPER_LETTERS[v] && d == LOWER_LETTERS[v]) || (c == LOWER_LETTERS[v] && d == UPPER_LETTERS[v]))
  }

  /** The name is the given one, in any case. */
  predicate Named(name: string, known: string) {
    |name| == |known| && forall k :: 0 <= k < |name| ==> SameLetter(name[k], known[k])
  }

  lemma Letters(v: nat)
    requires v < 26
    ensures UPPER_LETTERS[v] == 'A' + v as char && LOWER_LETTERS[v] == 'a' + v as char
  {
  }

  lemma SameLetterIsLower(c: char, d: char)
    ensures SameLetter(c, d) <==> Lower(c) == Lower(d)
  {
    forall v: nat | v < 26 ensures UPPER_LETTERS[v] == 'A' + v as char && LOWER_LETTERS[v] == 'a' + v as char {
      Letters(v);
    }
    if Lower(c) == Lower(d) && c != d {
      var v := (Lower(c) - 'a') as nat;
      assert (c == UPPER_LETTERS[v] && d == LOWER_LETTERS[v]) || (c == LOWER_LETTERS[v] && d == UPPER_LETTERS[v]);
    }
  }

  lemma NamedIgnoresCase(name: string, known: string, lower: string)
    requires Named(known, lower)
    ensures Named(name, known) <==> SameIgnoringCase(name, lower)
  {
    hide SameLetter, Lower;
    forall k | 0 <= k < |known| == |name|
      ensures SameLetter(name[k], known[k]) <==> Lower(name[k]) == Lower(lower[k])
    {
      SameLetterIsLower(name[k], known[k]);
      SameLetterIsLower(known[k], lower[k]);
    }
  }

  const CONTENT_LENGTH := "Content-Length"
  const TRANSFER_ENCODING := "Transfer-Encoding"

  lemma LowerNames()
    ensures Named(CONTENT_LENGTH, "content-length") && Named(TRANSFER_ENCODING, "transfer-encoding")
    ensures Named("chunked", "chunked")
  {
    NamedLower(CONTENT_LENGTH, "content-length");
    NamedLower(TRANSFER_ENCODING, "transfer-encoding");
  }

  lemma NamedLower(a: string, b: string)
    requires |a| == |b| && forall k :: 0 <= k < |a| ==> Lower(a[k]) == Lower(b[k])
    ensures Named(a, b)
  {
    hide SameLetter, Lower;
    forall k | 0 <= k < |a| ensures SameLetter(a[k], b[k]) {
      SameLetterIsLower(a[k], b[k]);
    }
  }

  // ----- the blank line of a printed header is its first

  /** Behind a block of lines that are not empty, the first blank line is the first. */
  lemma BlankIsNotEarlier(block: string, text: string, k: nat)
    requires "" !in Split(block, CRLF)
    requires text == block + CRLF + CRLF + "" && Occurs(text, HEADER_END, k)
    ensures k >= |block|
  {
    var a, b := TextAtBlank(text, k);
    var lines := Split(block, CRLF);
    hide Occurs, Find;
    SplitAtBlank(block, "");
    SplitAtBlank(a, b);
    SplitOfEmpty(CRLF);
    JoinOfSplit(a, CRLF);
    JoinOfSplit(block, CRLF);
    hide Split, Join;
    SameLines(lines, Split(a, CRLF), Split(b, CRLF));
  }

  lemma TextAtBlank(text: string, k: nat) returns (a: string, b: string)
    requires Occurs(text, HEADER_END, k)
    ensures |a| == k && text == a + CRLF + CRLF + b
  {
    Sequences.CutOut(text, HEADER_END, k);
    a, b := text[..k], text[k + 4..];
    assert HEADER_END == CRLF + CRLF;
    Sequences.Assoc(a, CRLF, CRLF);
  }

  lemma SameLines(lines: seq<string>, a: seq<string>, b: seq<string>)
    requires "" !in lines && b != [] && a + [""] + b == lines + [""] + [""]
    ensures a == lines
  {
    var all := lines + [""] + [""];
    assert all[|a|] == (a + [""] + b)[|a|] == "";
    assert |a| >= |lines| by {
      assert forall i :: 0 <= i < |lines| ==> all[i] == lines[i] && lines[i] in lines;
    }
    assert |a| + 1 + |b| == |lines| + 2;
    assert a == (a + [""] + b)[..|a|] == all[..|lines|] == lines;
  }

  /** Lines that are not empty make a header block that ends with the first blank line. */
  lemma BlockEndsFirst(block: string)
    requires "" !in Split(block, CRLF)
    ensures EndsFirst(block, HEADER_END)
  {
    var text := block + HEADER_END;
    hide Split;
    assert text == block + CRLF + CRLF + "";
    forall k | 0 <= k < |block| ensures !Occurs(text, HEADER_END, k) {
      if Occurs(text, HEADER_END, k) {
        BlankIsNotEarlier(block, text, k);
      }
    }
    assert text[|block|..] == HEADER_END;
    FindIs(text, HEADER_END, |block|);
  }

  lemma LinesAreNotEmpty(p: Packet)
    requires WellFormed(p)
    ensures "" !in Split(Block(p), CRLF)
  {
    SplitOfBlock(p);
    hide WellFormed, Block, Split;
    var lines := [StartLine(p)] + Lines(p.fields);
    forall k | 0 <= k < |lines| ensures lines[k] != "" {
      if k > 0 {
        assert lines[k] == FieldLine(p.fields[k - 1]);
      }
    }
  }

  // ----- what the fields say

  predicate NoLength(fields: seq<HeaderField>) {
    forall k :: 0 <= k < |fields| ==> !Named(fields[k].name, CONTENT_LENGTH)
  }

  /** The last Content-Length is a decimal numeral of n. */
  ghost predicate LastLength(fields: seq<HeaderField>, n: nat) {
    exists i :: 0 <= i < |fields|
      && Named(fields[i].name, CONTENT_LENGTH) && DecimalOf(fields[i].data, n) && NoLength(fields[i + 1..])
  }

  /** No Transfer-Encoding says chunked, with or without blanks around it. */
  ghost predicate NoCoding(fields: seq<HeaderField>) {
    forall k, value ::
      0 <= k < |fields| && Named(fields[k].name, TRANSFER_ENCODING) && Padded(fields[k].data, value) ==>
        !Named(value, "chunked")
  }

  ghost predicate Padded(data: string, value: string) {
    exists before, after :: Blank(before) && Blank(after) && data == before + value + after
  }

  predicate HasCoding(fields: seq<HeaderField>) {
    exists k :: 0 <= k < |fields| && Named(fields[k].name, TRANSFER_ENCODING) && Named(fields[k].data, "chunked")
  }

  lemma {:induction false} LengthIsRead(fields: seq<HeaderField>, i: nat, n: nat, f: Framing)
    requires i < |fields| && Named(fields[i].name, CONTENT_LENGTH) && DecimalOf(fields[i].data, n) && n <= INT_MAX
    requires NoLength(fields[i + 1..])
    ensures Introspect(fields, f).bytesLeft == n
  {
    hide DecimalOf, Named, SameIgnoringCase, Atoi;
    LowerNames();
    NamedIgnoresCase(fields[0].name, CONTENT_LENGTH, "content-length");
    var f2 := ReadField(fields[0], f);
    if i == 0 {
      AtoiOfDecimal(fields[0].data, n);
      LengthStays(fields[1..], f2);
    } else {
      assert fields[1..][i..] == fields[i + 1..] && fields[1..][i - 1 + 1..] == fields[i + 1..];
      LengthIsRead(fields[1..], i - 1, n, f2);
    }
  }

  lemma {:induction false} LengthStays(fields: seq<HeaderField>, f: Framing)
    requires NoLength(fields)
    ensures Introspect(fields, f).bytesLeft == f.bytesLeft
  {
    hide Named, SameIgnoringCase, Atoi;
    if fields != [] {
      LowerNames();
      NamedIgnoresCase(fields[0].name, CONTENT_LENGTH, "content-length");
        LengthStays(fields[1..], ReadField(fields[0], f));
    }
  }

  lemma {:induction false} CodingIsRead(fields: seq<HeaderField>, f: Framing)
    ensures Introspect(fields, f).chunked <==> f.chunked || HasCoding(fields)
  {
    hide Named, SameIgnoringCase, Atoi;
    if fields != [] {
      LowerNames();
      NamedIgnoresCase(fields[0].name, TRANSFER_ENCODING, "transfer-encoding");
      NamedIgnoresCase(fields[0].data, "chunked", "chunked");
        CodingIsRead(fields[1..], ReadField(fields[0], f));
      if HasCoding(fields) && !ReadField(fields[0], f).chunked {
        var k :| 0 <= k < |fields| && Named(fields[k].name, TRANSFER_ENCODING) && Named(fields[k].data, "chunked");
        assert k > 0 && fields[1..][k - 1] == fields[k];
      }
      assert forall k :: 0 <= k < |fields[1..]| ==> fields[1..][k] == fields[k + 1];
    }
  }

  // ----- chunk size lines

  /** Nothing, or a semicolon and whatever has no line end in it. */
  predicate Extension(ext: string) {
    ext == "" || (ext[0] == ';' && forall k :: 0 <= k < |ext| - 1 ==> !(ext[k] == '\r' && ext[k + 1] == '\n'))
  }

  /** A size in hexadecimal of any length and case, and an extension. */
  ghost predicate SizeLine(line: string, size: nat) {
    exists s, ext :: line == s + ext && HexOf(s, size) && Extension(ext)
  }

  lemma NumeralCharacters(s: string, n: nat, k: nat)
    requires HexOf(s, n) && k < |s|
    ensures s[k] != ';' && s[k] != '\r' && s[k] != '\n'
  {
    var digits :| SpellsNumber(s, digits, 16) && Positional(digits, 16) == n;
    NumeralIsDigit(s[k], digits[k]);
    hide Positional;
  }

  lemma SemicolonIsFirst(s: string, ext: string, n: nat)
    requires HexOf(s, n) && Extension(ext)
    ensures Split(s + ext, ";")[0] == s
  {
    var line := s + ext;
    hide HexOf;
    forall k | 0 <= k < |s| ensures !Occurs(line, ";", k) {
      NumeralCharacters(s, n, k);
      assert line[k..][0] == s[k];
    }
    if ext == "" {
      assert line == s;
      var i := Find(line, ";");
      assert i == |line|;
    } else {
      assert line[|s|..] == ext && Occurs(line, ";", |s|);
      FindIs(line, ";", |s|);
      assert line[..|s|] == s;
    }
  }

  lemma LineEndIsLast(s: string, ext: string, n: nat)
    requires HexOf(s, n) && Extension(ext)
    ensures EndsFirst(s + ext, CRLF)
  {
    var line := s + ext;
    var wire := line + CRLF;
    hide HexOf;
    forall k | 0 <= k < |line| ensures !Occurs(wire, CRLF, k) {
      assert wire[k] == line[k] && wire[k + 1] == if k + 1 < |line| then line[k + 1] else '\r';
      if k < |s| {
        NumeralCharacters(s, n, k);
        assert wire[k..][0] == s[k];
      } else {
        assert line[k] == ext[k - |s|];
        assert k + 1 < |line| ==> line[k + 1] == ext[k + 1 - |s|];
        assert wire[k..][0] == wire[k] && wire[k..][1] == wire[k + 1];
      }
    }
    assert wire[|line|..] == CRLF;
    FindIs(wire, CRLF, |line|);
  }

  /** Every such line is read as its size. */
  lemma SizeLineIsRead(line: string, size: nat)
    requires SizeLine(line, size) && size <= INT_MAX
    ensures ChunkLine(line, size)
  {
    var s, ext :| line == s + ext && HexOf(s, size) && Extension(ext);
    SemicolonIsFirst(s, ext, size);
    LineEndIsLast(s, ext, size);
    StrtolOfHex(s, size);
    hide Split, EndsFirst, Strtol, ToInt, HexOf, Extension;
  }

  /** The numeral of n as the server prints it, each letter in either case, behind any number of zeros. */
  predicate SpellingOf(s: string, zeros: nat, n: nat) {
    var printed := PrintNat(n, 16);
    && |s| == zeros + |printed|
    && (forall k :: 0 <= k < zeros ==> s[k] == '0')
    && forall k :: 0 <= k < |printed| ==> SameLetter(s[zeros + k], printed[k])
  }

  lemma SpellingIsHex(s: string, zeros: nat, n: nat)
    requires SpellingOf(s, zeros, n)
    ensures HexOf(s, n)
  {
    var digits := DigitsOf(n, 16);
    var all := seq(zeros, _ => 0) + digits;
    PrintedNumeral(n, 16);
    LeadingZeros(zeros, digits, 16);
    assert SpellsNumber(s, all, 16) by {
      hide PrintNat, SameLetter, IsNumeral;
      forall k | 0 <= k < |s| ensures IsNumeral(s[k], all[k]) {
        if k >= zeros {
          var j := k - zeros;
          assert s[k] == s[zeros + j];
          EitherCase(s[k], digits[j]);
        } else {
          EitherCase('0', 0);
        }
      }
    }
    hide SpellsNumber, Positional, SpellingOf;
    assert s != "" by {
      assert |digits| > 0;
    }
  }

  lemma EitherCase(c: char, d: nat)
    requires d < 16 && (SameLetter(c, UPPER_DIGITS[d]) || c == UPPER_DIGITS[d])
    ensures IsNumeral(c, d)
  {
    hide SameLetter, IsNumeral;
    SameLetterIsLower(c, UPPER_DIGITS[d]);
    DigitLetters(d);
    assert DigitValue(c) == d;
    NumeralIsDigit(c, d);
  }

  lemma DigitLetters(d: nat)
    requires d < 16
    ensures d < 10 ==> UPPER_DIGITS[d] == '0' + d as char
    ensures d >= 10 ==> UPPER_DIGITS[d] == 'A' + (d - 10) as char
  {
  }

  /** So every spelling of a size is read as it, with or without an extension. */
  lemma SpellingIsRead(s: string, zeros: nat, n: nat, ext: string)
    requires SpellingOf(s, zeros, n) && n <= INT_MAX && Extension(ext)
    ensures ChunkLine(s + ext, n)
  {
    hide SpellingOf, HexOf, Extension, ChunkLine;
    SpellingIsHex(s, zeros, n);
    SizeLineIsRead(s + ext, n);
  }

  // ----- messages

  /** What the header fields say of the body, and the body as it is written. */
  ghost predicate Says(fields: seq<HeaderField>, server: bool, b: Body) {
    match b
    case NoBody => LastLength(fields, 0) || (server && NoLength(fields))
    case Sized(text) => text != "" && |text| <= INT_MAX && LastLength(fields, |text|) && NoCoding(fields)
    case Chunks(pieces, last) =>
      && HasCoding(fields)
      && ((!server && NoLength(fields)) || exists n: nat :: 0 < n <= INT_MAX && LastLength(fields, n))
      && (forall p :: p in pieces ==> 0 < |p.data| <= INT_MAX && SizeLine(p.line, |p.data|))
      && SizeLine(last, 0)
  }

  lemma LastLengthIsRead(fields: seq<HeaderField>, n: nat)
    requires LastLength(fields, n) && n <= INT_MAX
    ensures Introspect(fields, Framing(false, -1)).bytesLeft == n
  {
    hide DecimalOf, Named, Introspect;
    var i :| 0 <= i < |fields|
      && Named(fields[i].name, CONTENT_LENGTH) && DecimalOf(fields[i].data, n) && NoLength(fields[i + 1..]);
    LengthIsRead(fields, i, n, Framing(false, -1));
  }

  lemma PiecesAreRead(pieces: seq<Piece>, last: string)
    requires forall p :: p in pieces ==> 0 < |p.data| <= INT_MAX && SizeLine(p.line, |p.data|)
    requires SizeLine(last, 0)
    ensures WellFormedPieces(pieces) && ChunkLine(last, 0)
  {
    hide SizeLine, ChunkLine;
    forall p | p in pieces ensures p.data != "" && ChunkLine(p.line, |p.data|) {
      SizeLineIsRead(p.line, |p.data|);
    }
    SizeLineIsRead(last, 0);
  }

  /** A well-formed header announces the body to the reader when what is heard of its fields says so. */
  lemma HeardIsAnnounced(p: Packet, server: bool, b: Body)
    requires WellFormed(p) && |p.version| <= 3 && Says(Heard(p).fields, server, b)
    ensures Announces(server, Message(Block(p), b))
    ensures ResponseTo(Message(Block(p), b)) == Response(Some(Heard(p)), Text(b))
  {
    var fields := Heard(p).fields;
    hide LastLength, NoLength, HasCoding, NoCoding, Introspect, EndsFirst, WellFormed, Block, HeardFields, FirstWord;
    hide ParseLines, Split, WellFormedPieces, ChunkLine, SizeLine, Print;
    HeaderIsRead(p);
    CodingIsRead(fields, Framing(false, -1));
    if NoCoding(fields) {
      NothingHeard(fields);
    }
    match b
    case NoBody =>
      NoLengthOr(fields, 0);
    case Sized(text) =>
      LastLengthIsRead(fields, |text|);
    case Chunks(pieces, last) =>
      PiecesAreRead(pieces, last);
      if exists n: nat :: 0 < n <= INT_MAX && LastLength(fields, n) {
        var n: nat :| 0 < n <= INT_MAX && LastLength(fields, n);
        LastLengthIsRead(fields, n);
      } else {
        LengthStays(fields, Framing(false, -1));
      }
  }

  lemma NoLengthOr(fields: seq<HeaderField>, n: nat)
    requires LastLength(fields, n) || NoLength(fields)
    requires n <= INT_MAX
    ensures LastLength(fields, n) ==> Introspect(fields, Framing(false, -1)).bytesLeft == n
    ensures NoLength(fields) ==> Introspect(fields, Framing(false, -1)).bytesLeft == -1
  {
    hide LastLength, NoLength, Introspect;
    if LastLength(fields, n) {
      LastLengthIsRead(fields, n);
    }
    if NoLength(fields) {
      LengthStays(fields, Framing(false, -1));
    }
  }

  /** The block ends with its first blank line, and its parse is what is heard of the packet. */
  lemma HeaderIsRead(p: Packet)
    requires WellFormed(p)
    ensures EndsFirst(Block(p), HEADER_END) && ParseLines(Split(Block(p), CRLF)) == Parsed(Heard(p))
  {
    hide EndsFirst, ParseLines, Split, Block, Parse, Print, WellFormed;
    ParseOfPrint(p, "");
    assert p.statusCode >= -1 by { CodeIsFine(p); }
    LinesAreNotEmpty(p);
    BlockEndsFirst(Block(p));
  }

  lemma CodeIsFine(p: Packet)
    requires WellFormed(p)
    ensures p.statusCode >= -1
  {
  }

  // ----- values survive their way

  lemma DecimalIsTrimmed(s: string, n: nat)
    requires DecimalOf(s, n)
    ensures Trim(" " + s) == s
  {
    var digits :| SpellsNumber(s, digits, 10) && Positional(digits, 10) == n;
    NumeralIsDigit(s[0], digits[0]);
    NumeralIsDigit(s[|s| - 1], digits[|s| - 1]);
    hide Trim, Positional;
    TrimOfBlank(s);
  }

  lemma ChunkedIsTrimmed(s: string)
    requires Named(s, "chunked")
    ensures Trim(" " + s) == s
  {
    SameLetterIsLower(s[0], 'c');
    SameLetterIsLower(s[6], 'd');
    hide Trim;
    TrimOfBlank(s);
  }

  lemma LengthIsHeard(fields: seq<HeaderField>, n: nat)
    requires LastLength(fields, n)
    ensures LastLength(HeardFields(fields), n)
  {
    hide Named, DecimalOf, Trim;
    var i :| 0 <= i < |fields|
      && Named(fields[i].name, CONTENT_LENGTH) && DecimalOf(fields[i].data, n) && NoLength(fields[i + 1..]);
    DecimalIsTrimmed(fields[i].data, n);
    var heard := HeardFields(fields);
    assert heard[i] == fields[i];
    var later, rest := heard[i + 1..], fields[i + 1..];
    forall k | 0 <= k < |later| ensures !Named(later[k].name, CONTENT_LENGTH) {
      assert later[k].name == rest[k].name;
    }
  }

  lemma CodingIsHeard(fields: seq<HeaderField>)
    requires HasCoding(fields)
    ensures HasCoding(HeardFields(fields))
  {
    hide Named, Trim;
    var k :| 0 <= k < |fields| && Named(fields[k].name, TRANSFER_ENCODING) && Named(fields[k].data, "chunked");
    ChunkedIsTrimmed(fields[k].data);
    assert HeardFields(fields)[k] == fields[k];
  }

  lemma SaysIsHeard(fields: seq<HeaderField>, server: bool, b: Body)
    requires Says(fields, server, b)
    ensures Says(HeardFields(fields), server, b)
  {
    NamesAreHeard(fields);
    hide NoLength, NoCoding, LastLength, HasCoding, HeardFields, SizeLine;
    if HasCoding(fields) {
      CodingIsHeard(fields);
    }
    if NoCoding(fields) {
      CodingIsNotHeard(fields);
    }
    forall n: nat | LastLength(fields, n) ensures LastLength(HeardFields(fields), n) {
      LengthIsHeard(fields, n);
    }
  }

  lemma NamesAreHeard(fields: seq<HeaderField>)
    ensures NoLength(fields) ==> NoLength(HeardFields(fields))
  {
    hide Named, Trim;
  }

  /** Trimming takes blanks away and nothing else. */
  lemma TrimIsInside(v: string) returns (before: string, after: string)
    ensures Blank(before) && Blank(after)
    ensures v == before + Trim(" " + v) + after || Trim(" " + v) == " " + v
  {
    assert (" " + v)[1..] == v && TrimLeft(" " + v) == TrimLeft(v);
    before := LeftBlanks(v);
    var t := TrimLeft(v);
    after := t[|TrimRight(t)|..];
  }

  lemma {:induction false} LeftBlanks(v: string) returns (before: string)
    ensures Blank(before) && v == before + TrimLeft(v)
  {
    if v != "" && v[0] == ' ' {
      var b := LeftBlanks(v[1..]);
      before := " " + b;
    } else {
      before := "";
    }
  }

  lemma PaddingIsHeard(v: string, value: string)
    requires Padded(Trim(" " + v), value) && Named(value, "chunked")
    ensures Padded(v, value)
  {
    hide Trim;
    var a, b := TrimIsInside(v);
    var t := Trim(" " + v);
    var before, after :| Blank(before) && Blank(after) && t == before + value + after;
    FirstOfChunked(value);
    hide Named;
    assert (before + value + after)[0] == if before == "" then value[0] else before[0];
    if v == a + t + b {
      Sequences.Assoc(a, before + value, after);
      Sequences.Assoc(a, before, value);
      Sequences.Assoc(a + before + value, after, b);
      IsPadded(v, a + before, value, after + b);
    } else if before != "" {
      assert (" " + v)[1..] == v && (before + value + after)[1..] == before[1..] + value + after;
      IsPadded(v, before[1..], value, after);
    } else {
      assert false;
    }
  }

  lemma IsPadded(data: string, before: string, value: string, after: string)
    requires Blank(before) && Blank(after) && data == before + value + after
    ensures Padded(data, value)
  {
  }

  lemma FirstOfChunked(value: string)
    requires Named(value, "chunked")
    ensures value != "" && value[0] != ' '
  {
    SameLetterIsLower(value[0], 'c');
  }

  lemma CodingIsNotHeard(fields: seq<HeaderField>)
    requires NoCoding(fields)
    ensures NoCoding(HeardFields(fields))
  {
    hide Named, Trim, Padded;
    var heard := HeardFields(fields);
    forall k, value | 0 <= k < |heard| && Named(heard[k].name, TRANSFER_ENCODING) && Padded(heard[k].data, value)
      ensures !Named(value, "chunked")
    {
      if Named(value, "chunked") {
        PaddingIsHeard(fields[k].data, value);
      }
    }
  }

  lemma NothingHeard(fields: seq<HeaderField>)
    requires NoCoding(fields)
    ensures !HasCoding(fields)
  {
    hide Named;
    forall k | 0 <= k < |fields| && Named(fields[k].name, TRANSFER_ENCODING) ensures !Named(fields[k].data, "chunked") {
      assert Blank("") && fields[k].data == "" + fields[k].data + "";
      assert Padded(fields[k].data, fields[k].data);
    }
  }

  /** A printed header that says so announces the body to the reader. */
  lemma SaidIsAnnounced(p: Packet, server: bool, b: Body)
    requires WellFormed(p) && |p.version| <= 3 && Says(p.fields, server, b)
    ensures Announces(server, Message(Block(p), b))
    ensures ResponseTo(Message(Block(p), b)) == Response(Some(Heard(p)), Text(b))
  {
    hide Says, HeardFields, WellFormed, Announces, ResponseTo, Block;
    SaysIsHeard(p.fields, server, b);
    HeardIsAnnounced(p, server, b);
  }

  /** A length as it is printed is such a numeral. */
  lemma PrintedLengthSays(fields: seq<HeaderField>, i: nat, n: nat)
    requires i < |fields| && Named(fields[i].name, CONTENT_LENGTH) && fields[i].data == PrintNat(n, 10)
    requires NoLength(fields[i + 1..])
    ensures LastLength(fields, n)
  {
    hide Named, NoLength, PrintNat, DecimalOf;
    PrintedIsDecimal(n);
  }

  /** Two such texts: a length of ten, and a size of twenty-six. */
  lemma TenIsTen()
    ensures Says([HeaderField("content-LENGTH", "10")], true, Sized("0123456789"))
  {
    var fields := [HeaderField("content-LENGTH", "10")];
    NamedLower("content-LENGTH", CONTENT_LENGTH);
    var digits: seq<nat> := [1, 0];
    assert digits[1..] == [0] && [0][1..] == [] && Power(10, 1) == 10 && Power(10, 0) == 1;
    assert Positional([0], 10) == 0 && Positional(digits, 10) == 10;
    assert SpellsNumber("10", digits, 10);
    hide Named;
    assert NoLength(fields[1..]) && DecimalOf(fields[0].data, 10);
    assert LastLength(fields, 10);
    OtherName();
    assert NoCoding(fields);
  }

  lemma OtherName()
    ensures !Named("content-LENGTH", TRANSFER_ENCODING)
  {
  }

  lemma SizeInLowerCase()
    ensures SizeLine("01a;name", 26)
  {
    var digits: seq<nat> := [0, 1, 10];
    assert digits[1..] == [1, 10] && digits[1..][1..] == [10] && [10][1..] == [];
    assert Power(16, 1) == 16 && Power(16, 0) == 1 && Power(16, 2) == 256;
    assert Positional([10], 16) == 10 && Positional([1, 10], 16) == 26 && Positional(digits, 16) == 26;
    assert SpellsNumber("01a", digits, 16);
    assert HexOf("01a", 26) && Extension(";name") && "01a;name" == "01a" + ";name";
  }

  /** A message as it is printed. */
  datatype Spoken = Spoken(packet: Packet, body: Body)

  ghost predicate Clear(m: Spoken, server: bool) {
    WellFormed(m.packet) && |m.packet.version| <= 3 && Says(m.packet.fields, server, m.body)
  }

  /** The printed messages, one behind the other. */
  function Bytes(ms: seq<Spoken>): string
    requires forall m :: m in ms ==> m.packet.statusCode >= -1
  {
    if ms == [] then "" else Print(ms[0].packet, WireBody(ms[0].body)) + Bytes(ms[1..])
  }

  function Framed(ms: seq<Spoken>): (all: seq<Message>)
    requires forall m :: m in ms ==> m.packet.statusCode >= -1
    ensures |all| == |ms| && forall k :: 0 <= k < |ms| ==> all[k] == Message(Block(ms[k].packet), ms[k].body)
  {
    seq(|ms|, k requires 0 <= k < |ms| => Message(Block(ms[k].packet), ms[k].body))
  }

  function Told(ms: seq<Spoken>): (responses: seq<Response>)
    ensures |responses| == |ms|
    ensures forall k :: 0 <= k < |ms| ==> responses[k] == Response(Some(Heard(ms[k].packet)), Text(ms[k].body))
  {
    seq(|ms|, k requires 0 <= k < |ms| => Response(Some(Heard(ms[k].packet)), Text(ms[k].body)))
  }

  lemma {:induction false} WireOfFramed(ms: seq<Spoken>)
    requires forall m :: m in ms ==> m.packet.statusCode >= -1
    ensures Wire(Framed(ms)) == Bytes(ms)
  {
    if ms != [] {
      var p, body, rest := ms[0].packet, WireBody(ms[0].body), ms[1..];
      WireOfFramed(rest);
      assert Framed(ms)[1..] == Framed(rest);
      PrintIsBlock(p, body);
      hide Print, Block, WireBody, Heard;
      FourPieces(Block(p), body, Bytes(rest));
    }
  }

  lemma FourPieces(block: string, body: string, rest: string)
    ensures block + CRLF + CRLF + body + rest == block + HEADER_END + (body + rest)
  {
    assert CRLF + CRLF == HEADER_END;
    Sequences.Assoc(block, CRLF, CRLF);
    Sequences.Assoc(block + HEADER_END, body, rest);
  }

  lemma AnnouncedParses(server: bool, m: Message)
    requires Announces(server, m)
    ensures ParseLines(Split(m.block, CRLF)).Parsed?
  {
  }

  lemma FramedIsReadable(ms: seq<Spoken>, server: bool, mode: Mode, answers: nat -> bool)
    requires forall m :: m in ms ==> Clear(m, server) && (m.body.Sized? ==> mode.HoldUntilDone?)
    requires server ==> forall k :: 0 <= k < |ms| && ms[k].body.Chunks? ==> !answers(k)
    ensures forall m :: m in ms ==> m.packet.statusCode >= -1
    ensures Readable(server, mode, answers, Framed(ms)) && Expected(Framed(ms)) == Told(ms)
  {
    hide WellFormed, Says, Block, Announces, Heard, Text, ResponseTo;
    forall m | m in ms ensures m.packet.statusCode >= -1 {
      CodeIsFine(m.packet);
    }
    var all := Framed(ms);
    forall k | 0 <= k < |all|
      ensures Announces(server, all[k]) && (all[k].body.Sized? ==> mode.HoldUntilDone?)
      ensures ParseLines(Split(all[k].block, CRLF)).Parsed? && ResponseTo(all[k]) == Told(ms)[k]
    {
      assert ms[k] in ms;
      SaidIsAnnounced(ms[k].packet, server, ms[k].body);
      AnnouncedParses(server, all[k]);
    }
  }

  /** Messages as they are printed, back to back, on a client connection, or on a server connection whose owner
      answers all but the last at once: the done calls are always those of the first messages, and all of them
      once everything has been read. */
  lemma SpokenMessagesArrive(ms: seq<Spoken>, server: bool, requests: nat, mode: Mode, answers: nat -> bool,
                             events: seq<Event>)
    requires forall m :: m in ms ==> Clear(m, server) && (m.body.Sized? ==> mode.HoldUntilDone?)
    requires server ==> forall k :: 0 <= k < |ms| && ms[k].body.Chunks? ==> !answers(k)
    requires if server then forall n: nat :: n + 1 < |ms| ==> answers(n) else requests >= |ms|
    ensures forall m :: m in ms ==> m.packet.statusCode >= -1
    ensures
      var start := World(Socket(Fresh(server, requests, mode, answers), "", 0, false), Bytes(ms));
      var w := Run(OnData, Answer, start, events);
      && !w.socket.user.faulted && w.socket.user.responses <= Told(ms)
      && (w.incoming == "" ==> w.socket.user.responses == Told(ms) && w.socket.buffer == "")
  {
    hide Clear, Run, Readable, Expected, Told, Wire, Bytes, Framed;
    FramedIsReadable(ms, server, mode, answers);
    WireOfFramed(ms);
    EveryFragmentation(Framed(ms), server, requests, mode, answers, events);
    EveryMessageArrives(Framed(ms), server, requests, mode, answers, events);
  }
}
