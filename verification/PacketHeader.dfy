/** HTTP header blocks: `ILibParsePacketHeader`, `ILibGetRawPacket` and `ILibClonePacket`. */
module PacketHeader {
  import opened Options
  import opened Splitter
  import opened Numbers
  import Sequences

  const CRLF := "\r\n"

  datatype HeaderField = HeaderField(name: string, data: string)

  /** `struct packetheader`; a request has status code -1, and absent strings are empty. */
  datatype Packet = Packet(
    statusCode: int, statusData: string,
    directive: string, directiveObj: string,
    version: string, fields: seq<HeaderField>)

  /** Rejected is the NULL result; Fault is a NULL dereference of the parser on a short status line. */
  datatype Outcome = Parsed(packet: Packet) | Rejected | Fault

  // ----- parsing

  function TrimLeft(v: string): (r: string)
    ensures r != "" ==> r[0] != ' '
  {
    if v != "" && v[0] == ' ' then TrimLeft(v[1..]) else v
  }

  function TrimRight(v: string): (r: string)
    ensures r != "" ==> r[|r| - 1] != ' '
    ensures r <= v && forall k :: |r| <= k < |v| ==> v[k] == ' '
  {
    if v != "" && v[|v| - 1] == ' ' then TrimRight(v[..|v| - 1]) else v
  }

  /** A value of spaces only is left as it is. */
  function Trim(v: string): string {
    if TrimLeft(v) == "" then v else TrimRight(TrimLeft(v))
  }

  function ParseField(line: string): Option<HeaderField> {
    var colon := Find(line, ":");
    if colon == |line| then None else Some(HeaderField(line[..colon], Trim(line[colon + 1..])))
  }

  function ParseFields(lines: seq<string>): Option<seq<HeaderField>> {
    if lines == [] || lines[0] == "" then Some([])
    else match ParseField(lines[0])
      case None => None
      case Some(f) =>
        match ParseFields(lines[1..])
        case None => None
        case Some(fs) => Some([f] + fs)
  }

  function ParseStartLine(line: string): Outcome {
    var tokens := Split(line, " ");
    if "HTTP/" <= tokens[0] then
      if |tokens| < 3 then Fault
      else Parsed(Packet(Atoi(tokens[1]), tokens[2], "", "", Last(Split(tokens[0], "/")), []))
    else if |tokens| == 1 then Rejected
    else Parsed(Packet(-1, "", tokens[0], tokens[1], Last(Split(Last(tokens), "/")), []))
  }

  function ParseLines(lines: seq<string>): Outcome
    requires lines != []
  {
    match ParseStartLine(lines[0])
    case Parsed(p) =>
      (match ParseFields(lines[1..])
       case None => Rejected
       case Some(fs) => Parsed(p.(fields := fs)))
    case other => other
  }

  function Parse(text: string): Outcome {
    ParseLines(Split(text, CRLF))
  }

  /** `ILibClonePacket`: the copy has the fixed VersionLength 3, so a longer version is cut. */
  function ClonePacket(p: Packet): Packet {
    if |p.version| > 3 then p.(version := p.version[..3]) else p
  }

  // ----- printing

  function FieldLine(f: HeaderField): string {
    f.name + ": " + f.data
  }

  function PrintFields(fields: seq<HeaderField>): string {
    if fields == [] then "" else FieldLine(fields[0]) + CRLF + PrintFields(fields[1..])
  }

  function StartLine(p: Packet): string
    requires p.statusCode >= -1
  {
    if p.statusCode != -1 then
      "HTTP/" + p.version + " " + PrintNat(p.statusCode, 10) + " " + p.statusData
    else
      p.directive + " " + p.directiveObj + " HTTP/" + p.version
  }

  function Print(p: Packet, body: string): string
    requires p.statusCode >= -1
  {
    StartLine(p) + CRLF + PrintFields(p.fields) + CRLF + body
  }

  // ----- the loops

  predicate Blank(v: string) {
    forall k :: 0 <= k < |v| ==> v[k] == ' '
  }

  lemma {:induction false} TrimLeftIs(v: string, k: nat)
    requires k <= |v| && Blank(v[..k]) && (k < |v| ==> v[k] != ' ')
    ensures TrimLeft(v) == v[k..]
  {
    if k > 0 {
      assert v[0] == v[..k][0];
      assert v[1..][..k - 1] == v[..k][1..];
      TrimLeftIs(v[1..], k - 1);
      assert v[1..][k - 1..] == v[k..];
    }
  }

  lemma {:induction false} TrimRightIs(v: string, k: nat)
    requires k <= |v| && Blank(v[k..]) && (k > 0 ==> v[k - 1] != ' ')
    ensures TrimRight(v) == v[..k]
  {
    if k < |v| {
      var w := v[..|v| - 1];
      assert v[|v| - 1] == v[k..][|v| - 1 - k];
      assert forall j :: 0 <= j < |w| - k ==> w[k..][j] == v[k..][j];
      TrimRightIs(w, k);
      assert w[..k] == v[..k];
    } else {
      assert v[..k] == v;
    }
  }

  /** The loop over FLNWS: the first index that is not blank, or 0. */
  method FirstNotBlank(v: string) returns (flnws: nat)
    ensures Blank(v) ==> flnws == 0
    ensures !Blank(v) ==> flnws < |v| && v[flnws] != ' ' && Blank(v[..flnws])
  {
    flnws := 0;
    var i := 0;
    while i < |v|
      invariant i <= |v| && flnws == 0 && Blank(v[..i])
    {
      if v[i] != ' ' {
        return i;
      }
      i := i + 1;
    }
    assert v[..i] == v;
  }

  /** The loop over FTNWS: the last index that is not blank, or |v| - 1. */
  method LastNotBlank(v: string) returns (ftnws: int)
    ensures Blank(v) ==> ftnws == |v| - 1
    ensures !Blank(v) ==> 0 <= ftnws < |v| && v[ftnws] != ' ' && Blank(v[ftnws + 1..])
  {
    ftnws := |v| - 1;
    var i := |v| - 1;
    while i >= 0
      invariant -1 <= i < |v| && ftnws == |v| - 1 && Blank(v[i + 1..])
    {
      if v[i] != ' ' {
        return i;
      }
      i := i - 1;
    }
    assert v[i + 1..] == v;
  }

  method TrimValue(v: string) returns (r: string)
    ensures r == Trim(v)
  {
    var flnws := FirstNotBlank(v);
    var ftnws := LastNotBlank(v);
    if Blank(v) {
      assert v[..|v|] == v;
      TrimLeftIs(v, |v|);
      r := v[flnws..ftnws + 1];
    } else {
      TrimLeftIs(v, flnws);
      TrimmedSlice(v, flnws, ftnws);
      r := v[flnws..ftnws + 1];
    }
  }

  lemma TrimmedSlice(v: string, lo: nat, hi: nat)
    requires lo < |v| && hi < |v| && v[lo] != ' ' && v[hi] != ' ' && Blank(v[..lo]) && Blank(v[hi + 1..])
    ensures lo <= hi && TrimRight(v[lo..]) == v[lo..hi + 1]
  {
    assert lo <= hi by {
      assert forall k :: 0 <= k < lo ==> v[k] == v[..lo][k];
    }
    var t := v[lo..];
    assert t[hi - lo + 1..] == v[hi + 1..];
    TrimRightIs(t, hi - lo + 1);
    assert t[..hi - lo + 1] == v[lo..hi + 1];
  }

  method ParseHeaderLine(line: string) returns (r: Option<HeaderField>)
    ensures r == ParseField(line)
  {
    var i := 0;
    while i < |line|
      invariant i <= |line|
      invariant forall k :: 0 <= k < i ==> line[k] != ':'
    {
      if line[i] == ':' {
        ColonAt(line, i);
        var data := TrimValue(line[i + 1..]);
        return Some(HeaderField(line[..i], data));
      }
      i := i + 1;
    }
    ColonAt(line, i);
    r := None;
  }

  lemma ColonAt(line: string, i: nat)
    requires i <= |line| && forall k :: 0 <= k < i ==> line[k] != ':'
    requires i < |line| ==> line[i] == ':'
    ensures Find(line, ":") == i
  {
    forall k | 0 <= k <= |line| ensures Occurs(line, ":", k) <==> k < |line| && line[k] == ':' {
      if k < |line| {
        assert line[k..][0] == line[k];
      }
    }
  }

  /** The texts of the fields of ILibParseString over a whole string. */
  method Tokens(line: string, delimiter: string) returns (texts: seq<string>)
    requires delimiter != ""
    ensures texts == Split(line, delimiter)
  {
    var fields := ParseString(line, 0, |line|, delimiter);
    assert line[0..|line|] == line;
    hide Split;
    texts := seq(|fields|, k requires 0 <= k < |fields| => fields[k].Text(line));
  }

  method ParseFirstLine(line: string) returns (r: Outcome)
    ensures r == ParseStartLine(line)
  {
    hide Split, Atoi;
    var tokens := Tokens(line, " ");
    if "HTTP/" <= tokens[0] {
      var p := Tokens(tokens[0], "/");
      if |tokens| < 3 {
        return Fault;
      }
      r := Parsed(Packet(Atoi(tokens[1]), tokens[2], "", "", Last(p), []));
    } else if |tokens| == 1 {
      r := Rejected;
    } else {
      var p := Tokens(Last(tokens), "/");
      r := Parsed(Packet(-1, "", tokens[0], tokens[1], Last(p), []));
    }
  }

  method ParsePacketHeader(buffer: string, offset: nat, length: nat) returns (r: Outcome)
    requires offset <= length <= |buffer|
    ensures r == Parse(buffer[offset..length])
  {
    hide ParseStartLine, ParseField, Split;
    var p := ParseString(buffer, offset, length, CRLF);
    ghost var lines := Split(buffer[offset..length], CRLF);
    var start := ParseFirstLine(p[0].Text(buffer));
    if !start.Parsed? {
      return start;
    }
    var fields: seq<HeaderField> := [];
    var k := 1;
    PrependNone(ParseFields(lines[1..]));
    while k < |p| && p[k].datalength != 0
      invariant 1 <= k <= |p|
      invariant ParseFields(lines[1..]) ==
                match ParseFields(lines[k..]) case None => None case Some(fs) => Some(fields + fs)
    {
      var f := ParseHeaderLine(p[k].Text(buffer));
      assert lines[k..][1..] == lines[k + 1..] && lines[k..][0] == lines[k];
      if f.None? {
        return Rejected;
      }
      AppendField(fields, f.value, ParseFields(lines[k + 1..]));
      fields := fields + [f.value];
      k := k + 1;
    }
    assert k < |p| ==> lines[k..][0] == "";
    r := Parsed(start.packet.(fields := fields));
  }

  lemma PrependNone(rest: Option<seq<HeaderField>>)
    ensures rest.Some? ==> [] + rest.value == rest.value
  {
  }

  lemma AppendField(fields: seq<HeaderField>, f: HeaderField, rest: Option<seq<HeaderField>>)
    ensures rest.Some? ==> fields + ([f] + rest.value) == fields + [f] + rest.value
  {
  }

  method Put(buffer: array<char>, i: nat, s: string) returns (j: nat)
    requires i + |s| <= buffer.Length
    modifies buffer
    ensures j == i + |s| && buffer[..j] == old(buffer[..i]) + s
  {
    forall k | 0 <= k < |s| {
      buffer[i + k] := s[k];
    }
    j := i + |s|;
  }

  method PutField(buffer: array<char>, i: nat, f: HeaderField) returns (j: nat)
    requires i + |FieldLine(f) + CRLF| <= buffer.Length
    modifies buffer
    ensures j == i + |FieldLine(f) + CRLF| && buffer[..j] == old(buffer[..i]) + (FieldLine(f) + CRLF)
  {
    ghost var before := buffer[..i];
    j := Put(buffer, i, f.name);
    j := Put(buffer, j, ": ");
    j := Put(buffer, j, f.data);
    j := Put(buffer, j, CRLF);
    Sequences.Assoc(before, f.name, ": ");
    Sequences.Assoc(before, f.name + ": ", f.data);
    Sequences.Assoc(before, FieldLine(f), CRLF);
  }

  /** The BufferSize of `ILibGetRawPacket`. */
  method BufferSize(p: Packet, bodyLength: nat) returns (size: nat)
    requires -1 <= p.statusCode <= 999
    requires p.statusCode == -1 ==> |p.version| <= 3
    ensures |StartLine(p)| + |CRLF| + |PrintFields(p.fields)| + |CRLF| + bodyLength + 1 <= size
  {
    if p.statusCode != -1 {
      size := 12 + |p.version| + |p.statusData|;
      PrintedLength(p.statusCode, 10, 3) by { assert Power(10, 3) == 10 * (10 * (10 * Power(10, 0))); }
    } else {
      size := |p.directive| + |p.directiveObj| + 12;
    }
    assert |StartLine(p) + CRLF| <= size;
    hide StartLine;
    ghost var first := size;
    var k := 0;
    while k < |p.fields|
      invariant k <= |p.fields|
      invariant size + |PrintFields(p.fields[k..])| == first + |PrintFields(p.fields)|
    {
      assert p.fields[k..][1..] == p.fields[k + 1..];
      size := size + |p.fields[k].name| + |p.fields[k].data| + 4;
      k := k + 1;
    }
    size := size + 3 + bodyLength;
  }

  /** `ILibGetRawPacket`: the text is the print, and it fits the computed BufferSize with its final
      NUL, for status codes of at most three digits and request versions of at most three bytes. */
  method GetRawPacket(p: Packet, body: string) returns (buffer: array<char>, length: nat)
    requires -1 <= p.statusCode <= 999
    requires p.statusCode == -1 ==> |p.version| <= 3
    ensures fresh(buffer) && length < buffer.Length
    ensures buffer[..length] == Print(p, body) && buffer[length] == '\0'
  {
    var bufferSize := BufferSize(p, |body|);
    hide StartLine, FieldLine;
    buffer := new char[bufferSize];
    var i: nat := Put(buffer, 0, StartLine(p));
    i := Put(buffer, i, CRLF);
    ghost var top := StartLine(p) + CRLF;
    assert buffer[..i] == top;
    i := PutFields(buffer, i, p.fields);
    i := Put(buffer, i, CRLF);
    i := Put(buffer, i, body);
    buffer[i] := '\0';
    length := i;
  }

  method PutFields(buffer: array<char>, start: nat, fields: seq<HeaderField>) returns (i: nat)
    requires start + |PrintFields(fields)| <= buffer.Length
    modifies buffer
    ensures i == start + |PrintFields(fields)|
    ensures buffer[..i] == old(buffer[..start]) + PrintFields(fields)
  {
    hide FieldLine;
    i := start;
    var k := 0;
    while k < |fields|
      invariant k <= |fields|
      invariant i + |PrintFields(fields[k..])| == start + |PrintFields(fields)|
      invariant buffer[..i] + PrintFields(fields[k..]) == old(buffer[..start]) + PrintFields(fields)
    {
      ghost var done, rest := buffer[..i], PrintFields(fields[k + 1..]);
      FieldsStep(fields, k);
      i := PutField(buffer, i, fields[k]);
      Sequences.Assoc(done, FieldLine(fields[k]) + CRLF, rest);
      k := k + 1;
    }
    assert buffer[..i] + "" == buffer[..i];
  }

  lemma FieldsStep(fields: seq<HeaderField>, k: nat)
    requires k < |fields|
    ensures PrintFields(fields[k..]) == FieldLine(fields[k]) + CRLF + PrintFields(fields[k + 1..])
  {
    assert fields[k..][1..] == fields[k + 1..];
  }

  // ----- a header block decides its own parse

  lemma CrlfIsUnbordered()
    ensures Unbordered(CRLF)
  {
    assert CRLF[1] == '\n' && CRLF[0] == '\r';
    assert !Border(CRLF, 1);
  }

  lemma SingleIsUnbordered(c: char)
    ensures Unbordered([c])
  {
  }

  lemma {:induction false} FieldsStopAtEmpty(lines: seq<string>, rest: seq<string>)
    ensures ParseFields(lines + [""] + rest) == ParseFields(lines)
  {
    if lines != [] {
      assert (lines + [""] + rest)[1..] == lines[1..] + [""] + rest;
      FieldsStopAtEmpty(lines[1..], rest);
    }
  }

  /** A blank line separates the lines before it from those behind it. */
  lemma SplitAtBlank(h: string, x: string)
    ensures Split(h + CRLF + CRLF + x, CRLF) == Split(h, CRLF) + [""] + Split(x, CRLF)
  {
    CrlfIsUnbordered();
    hide Unbordered, Split;
    SplitAt("", x, CRLF);
    SplitAt(h, "" + (CRLF + x), CRLF);
    assert h + CRLF + CRLF + x == h + (CRLF + ("" + (CRLF + x)));
    SplitOfEmpty(CRLF);
    Sequences.Assoc(Split(h, CRLF), [""], Split(x, CRLF));
  }

  /** Whatever follows the blank line, the parse is that of the lines before it. */
  lemma ParseOfBlock(h: string, x: string)
    ensures Parse(h + CRLF + CRLF + x) == ParseLines(Split(h, CRLF))
  {
    SplitAtBlank(h, x);
    hide Split, ParseFields, ParseStartLine;
    var lines := Split(h, CRLF);
    var all := lines + [""] + Split(x, CRLF);
    assert all[0] == lines[0] && all[1..] == lines[1..] + [""] + Split(x, CRLF);
    FieldsStopAtEmpty(lines[1..], Split(x, CRLF));
  }

  lemma SplitOfEmpty(d: string)
    requires d != ""
    ensures Split("", d) == [""]
  {
  }

  // ----- round trip

  predicate Trimmed(v: string) {
    v != "" && v[0] != ' ' && v[|v| - 1] != ' '
  }

  lemma {:induction false} TrimRightFixed(v: string)
    requires v != "" && v[|v| - 1] != ' '
    ensures TrimRight(v) == v
  {
  }

  lemma TrimRightKeeps(t: string)
    requires t != "" && t[0] != ' '
    ensures TrimRight(t) != "" && TrimRight(t)[0] == t[0]
  {
  }

  lemma {:induction false} TrimLeftShrinks(v: string)
    ensures |TrimLeft(v)| <= |v|
  {
    if v != "" && v[0] == ' ' {
      TrimLeftShrinks(v[1..]);
    }
  }

  /** The blank the printer puts before a value is trimmed away again exactly when the value itself
      is not empty and neither starts nor ends with a blank. */
  lemma TrimOfBlank(v: string)
    ensures Trim(" " + v) == v <==> Trimmed(v)
  {
    assert (" " + v)[1..] == v;
    assert TrimLeft(" " + v) == TrimLeft(v);
    if Trimmed(v) {
      TrimRightFixed(v);
    } else if TrimLeft(v) == "" {
      assert |Trim(" " + v)| == |v| + 1;
    } else {
      var t := TrimLeft(v);
      TrimLeftShrinks(v);
      TrimRightKeeps(t);
    }
  }

  /** Blanks around a value are not part of it. */
  lemma TrimMeans(before: string, value: string, after: string)
    requires Blank(before) && Blank(after) && Trimmed(value)
    ensures Trim(before + value + after) == value
  {
    var v := before + value + after;
    assert v[..|before|] == before && v[|before|..] == value + after;
    TrimLeftIs(v, |before|);
    assert (value + after)[|value|..] == after && (value + after)[..|value|] == value;
    TrimRightIs(value + after, |value|);
  }

  lemma ParseOfFieldLine(f: HeaderField)
    requires ':' !in f.name
    ensures ParseField(FieldLine(f)) == Some(HeaderField(f.name, Trim(" " + f.data)))
  {
    var line := FieldLine(f);
    forall k | 0 <= k < |f.name| ensures !Occurs(line, ":", k) {
      assert line[k] == f.name[k] && f.name[k] in f.name;
      assert line[k..][0] == line[k];
    }
    assert line[|f.name|..] == ": " + f.data;
    FindIs(line, ":", |f.name|);
    assert line[..|f.name|] == f.name;
    assert line[|f.name| + 1..] == " " + f.data;
  }

  function Lines(fields: seq<HeaderField>): (lines: seq<string>)
    ensures |lines| == |fields|
    ensures forall k :: 0 <= k < |fields| ==> lines[k] == FieldLine(fields[k])
  {
    seq(|fields|, k requires 0 <= k < |fields| => FieldLine(fields[k]))
  }

  /** What the parser makes of printed fields. */
  function HeardFields(fields: seq<HeaderField>): (heard: seq<HeaderField>)
    ensures |heard| == |fields|
    ensures forall k :: 0 <= k < |fields| ==> heard[k] == HeaderField(fields[k].name, Trim(" " + fields[k].data))
  {
    seq(|fields|, k requires 0 <= k < |fields| => HeaderField(fields[k].name, Trim(" " + fields[k].data)))
  }

  lemma {:induction false} ParseOfLines(fields: seq<HeaderField>)
    requires forall f :: f in fields ==> ':' !in f.name
    ensures ParseFields(Lines(fields)) == Some(HeardFields(fields))
  {
    if fields != [] {
      var f, rest := fields[0], fields[1..];
      assert FieldLine(f)[|f.name|] == ':';
      ParseOfFieldLine(f);
      ParseOfLines(rest);
      hide ParseField, Trim, Lines, FieldLine, HeardFields;
      assert Lines(fields)[1..] == Lines(rest);
      assert HeardFields(fields) == [HeaderField(f.name, Trim(" " + f.data))] + HeardFields(rest);
    }
  }

  /** The fields come back unchanged exactly when every value is trimmed and not empty. */
  lemma HeardFieldsAreSame(fields: seq<HeaderField>)
    ensures HeardFields(fields) == fields <==> forall f :: f in fields ==> Trimmed(f.data)
  {
    hide Trim, Trimmed;
    forall k | 0 <= k < |fields| ensures HeardFields(fields)[k] == fields[k] <==> Trimmed(fields[k].data) {
      TrimOfBlank(fields[k].data);
    }
    if forall f :: f in fields ==> Trimmed(f.data) {
      assert forall k :: 0 <= k < |fields| ==> fields[k] in fields;
      assert HeardFields(fields) == fields;
    } else {
      var f :| f in fields && !Trimmed(f.data);
      var k :| 0 <= k < |fields| && fields[k] == f;
      assert HeardFields(fields)[k] != fields[k];
    }
  }

  lemma FreeOfChar(s: string, c: char)
    requires c !in s
    ensures Free(s, [c])
  {
    forall k | 0 <= k ensures !Occurs(s, [c], k) {
      if k < |s| {
        assert s[k..][0] == s[k] && s[k] in s;
      }
    }
  }

  lemma FreeOfCrlf(s: string)
    requires '\n' !in s
    ensures Free(s, CRLF)
  {
    forall k | 0 <= k ensures !Occurs(s, CRLF, k) {
      if k + 1 < |s| {
        assert s[k..][1] == s[k + 1] && s[k + 1] in s;
        assert CRLF[1] == '\n';
      }
    }
  }

  /** Tokens without separators: what the printer needs for its lines to be read back. */
  predicate WellFormed(p: Packet) {
    && '\n' !in p.version && ' ' !in p.version && '/' !in p.version
    && (if p.statusCode != -1 then
          && 0 <= p.statusCode <= INT_MAX
          && '\n' !in p.statusData
          && p.directive == p.directiveObj == ""
        else
          && '\n' !in p.directive && ' ' !in p.directive && !("HTTP/" <= p.directive)
          && '\n' !in p.directiveObj && ' ' !in p.directiveObj
          && p.statusData == "")
    && forall f :: f in p.fields ==> '\n' !in f.name && ':' !in f.name && '\n' !in f.data
  }

  lemma SplitWord(a: string, rest: string)
    requires ' ' !in a
    ensures Split(a + (" " + rest), " ") == [a] + Split(rest, " ")
  {
    SingleIsUnbordered(' ');
    hide Unbordered, Split;
    SplitAt(a, rest, " ");
    WordIsWhole(a);
  }

  lemma WordIsWhole(a: string)
    requires ' ' !in a
    ensures Split(a, " ") == [a]
  {
    FreeOfChar(a, ' ');
    SplitNone(a, " ");
  }

  /** Two tokens and a rest that may have blanks. */
  lemma SplitOfStatus(a: string, b: string, rest: string)
    requires ' ' !in a && ' ' !in b
    ensures Split(a + " " + b + " " + rest, " ") == [a, b] + Split(rest, " ")
  {
    hide Split;
    SplitWord(a, b + (" " + rest));
    SplitWord(b, rest);
    Sequences.Assoc(a + " ", b, " " + rest);
    Sequences.Assoc(a, " ", b + (" " + rest));
    Sequences.Assoc(a + " " + b, " ", rest);
  }

  lemma SplitOfThree(a: string, b: string, c: string)
    requires ' ' !in a && ' ' !in b && ' ' !in c
    ensures Split(a + " " + b + " " + c, " ") == [a, b, c]
  {
    hide Split;
    SplitOfStatus(a, b, c);
    WordIsWhole(c);
  }

  /** The parser keeps the first word of the status text. */
  function FirstWord(s: string): string {
    Split(s, " ")[0]
  }

  lemma FirstWordIsAll(s: string)
    ensures FirstWord(s) == s <==> ' ' !in s
  {
    var i := Find(s, " ");
    if ' ' in s {
      var k :| 0 <= k < |s| && s[k] == ' ';
      assert s[k..][0] == ' ';
      assert Occurs(s, " ", k);
    } else {
      FreeOfChar(s, ' ');
    }
  }

  lemma SplitOfVersion(version: string)
    requires '/' !in version
    ensures Split("HTTP/" + version, "/") == ["HTTP", version]
  {
    SingleIsUnbordered('/');
    FreeOfChar("HTTP", '/');
    FreeOfChar(version, '/');
    hide Free, Unbordered, Split;
    SplitOfJoin(["HTTP", version], "/");
    assert ["HTTP", version][1..] == [version];
    assert "HTTP" + "/" + version == "HTTP/" + version;
  }

  lemma DecimalHasNoBlank(n: nat)
    ensures ' ' !in PrintNat(n, 10) && '\n' !in PrintNat(n, 10)
  {
    PrintedDigits(n, 10);
  }

  lemma StatusLineIs(p: Packet)
    requires p.statusCode >= 0
    ensures StartLine(p) == "HTTP/" + p.version + " " + PrintNat(p.statusCode, 10) + " " + p.statusData
  {
  }

  lemma ParseOfStatusLine(p: Packet)
    requires WellFormed(p) && p.statusCode != -1
    ensures ParseStartLine(StartLine(p)) == Parsed(p.(statusData := FirstWord(p.statusData), fields := []))
  {
    hide PrintNat, Atoi, Split;
    var version, code := "HTTP/" + p.version, PrintNat(p.statusCode, 10);
    StatusParts(p);
    hide StartLine, WellFormed;
    SplitOfVersion(p.version);
    SplitOfStatus(version, code, p.statusData);
  }

  lemma StatusParts(p: Packet)
    requires WellFormed(p) && p.statusCode != -1
    ensures p.statusCode >= 0 && '/' !in p.version && ' ' !in "HTTP/" + p.version
    ensures p == p.(directive := "", directiveObj := "")
    ensures var code := PrintNat(p.statusCode, 10);
      && ' ' !in code && Atoi(code) == p.statusCode
      && StartLine(p) == "HTTP/" + p.version + " " + code + " " + p.statusData
  {
    DecimalHasNoBlank(p.statusCode);
    AtoiOfPrinted(p.statusCode);
    StatusLineIs(p);
    hide PrintNat, Atoi, StartLine;
  }

  lemma RequestLineIs(p: Packet)
    requires p.statusCode == -1
    ensures StartLine(p) == p.directive + " " + p.directiveObj + " " + ("HTTP/" + p.version)
  {
    var a := p.directive + " " + p.directiveObj;
    assert " HTTP/" == " " + "HTTP/";
    Sequences.Assoc(a, " ", "HTTP/");
    Sequences.Assoc(a + " ", "HTTP/", p.version);
  }

  lemma ParseOfRequestLine(p: Packet)
    requires WellFormed(p) && p.statusCode == -1
    ensures ParseStartLine(StartLine(p)) == Parsed(p.(fields := []))
  {
    hide Split;
    RequestParts(p);
    hide StartLine, WellFormed;
    SplitOfVersion(p.version);
    SplitOfThree(p.directive, p.directiveObj, "HTTP/" + p.version);
  }

  lemma RequestParts(p: Packet)
    requires WellFormed(p) && p.statusCode == -1
    ensures ' ' !in p.directive && ' ' !in p.directiveObj && '/' !in p.version && ' ' !in "HTTP/" + p.version
    ensures !("HTTP/" <= p.directive) && p == p.(statusCode := -1, statusData := "")
    ensures StartLine(p) == p.directive + " " + p.directiveObj + " " + ("HTTP/" + p.version)
  {
    RequestLineIs(p);
    hide StartLine;
  }

  /** What the parser makes of a printed packet. */
  function Heard(p: Packet): Packet {
    p.(statusData := FirstWord(p.statusData), fields := HeardFields(p.fields))
  }

  lemma ParseOfStartLine(p: Packet)
    requires WellFormed(p)
    ensures ParseStartLine(StartLine(p)) == Parsed(p.(statusData := FirstWord(p.statusData), fields := []))
  {
    if p.statusCode != -1 {
      ParseOfStatusLine(p);
    } else {
      FirstWordIsAll(p.statusData);
      ParseOfRequestLine(p);
    }
    hide StartLine, ParseStartLine, FirstWord;
  }

  lemma StartLineIsOneLine(p: Packet)
    requires WellFormed(p)
    ensures '\n' !in StartLine(p)
  {
    if p.statusCode != -1 {
      DecimalHasNoBlank(p.statusCode);
    }
    hide PrintNat;
  }

  lemma {:induction false} PrintFieldsIsJoin(fields: seq<HeaderField>, start: string)
    ensures start + CRLF + PrintFields(fields) == Join([start] + Lines(fields), CRLF) + CRLF
  {
    var lines := Lines(fields);
    if fields == [] {
      assert [start] + lines == [start];
    } else {
      var line := FieldLine(fields[0]);
      assert Lines(fields[1..]) == lines[1..];
      PrintFieldsIsJoin(fields[1..], line);
      assert [line] + lines[1..] == lines;
      hide Lines, FieldLine;
      JoinCons(start, lines, CRLF);
      calc {
        start + CRLF + PrintFields(fields);
        start + CRLF + (line + CRLF + PrintFields(fields[1..]));
        start + CRLF + (Join(lines, CRLF) + CRLF);
        start + CRLF + Join(lines, CRLF) + CRLF;
      }
    }
  }

  /** The printed lines without their final line end. */
  function Block(p: Packet): string
    requires p.statusCode >= -1
  {
    Join([StartLine(p)] + Lines(p.fields), CRLF)
  }

  lemma PrintIsBlock(p: Packet, body: string)
    requires p.statusCode >= -1
    ensures Print(p, body) == Block(p) + CRLF + CRLF + body
  {
    PrintFieldsIsJoin(p.fields, StartLine(p));
    hide StartLine, PrintFields, Lines, Join;
  }

  lemma SplitOfBlock(p: Packet)
    requires WellFormed(p)
    ensures Split(Block(p), CRLF) == [StartLine(p)] + Lines(p.fields)
  {
    var lines := [StartLine(p)] + Lines(p.fields);
    CrlfIsUnbordered();
    StartLineIsOneLine(p);
    hide StartLine, Split, Unbordered;
    forall line | line in lines ensures Free(line, CRLF) {
      if line != StartLine(p) {
        var k :| 0 <= k < |p.fields| && line == Lines(p.fields)[k];
        var f := p.fields[k];
        assert f in p.fields && line == f.name + ": " + f.data;
      }
      FreeOfCrlf(line);
    }
    SplitOfJoin(lines, CRLF);
  }

  /** Printing and parsing a header, for tokens without separators and any body: the status text comes back
      as its first word and every value trimmed behind its blank. */
  lemma ParseOfPrint(p: Packet, body: string)
    requires WellFormed(p)
    ensures Parse(Print(p, body)) == Parsed(Heard(p)) == ParseLines(Split(Block(p), CRLF))
  {
    PrintIsBlock(p, body);
    ParseOfBlock(Block(p), body);
    SplitOfBlock(p);
    ParseOfStartLine(p);
    ParseOfLines(p.fields);
    hide Parse, Print, StartLine, ParseStartLine, ParseFields, Lines, HeardFields, FirstWord, Block;
    assert ([StartLine(p)] + Lines(p.fields))[1..] == Lines(p.fields);
  }

  /** So the parse of the print is the packet exactly when its status text is one word and every field value
      is trimmed and not empty. */
  lemma RoundTrip(p: Packet, body: string)
    requires WellFormed(p)
    ensures Parse(Print(p, body)) == Parsed(p) <==>
      ' ' !in p.statusData && forall f :: f in p.fields ==> Trimmed(f.data)
  {
    hide Parse, Print, HeardFields, FirstWord, Trimmed, WellFormed;
    ParseOfPrint(p, body);
    FirstWordIsAll(p.statusData);
    HeardFieldsAreSame(p.fields);
  }

  /** An empty value is such a failure: it comes back as a single blank. */
  lemma EmptyValueIsLost(p: Packet, body: string)
    requires WellFormed(p) && p.fields == [HeaderField("EXT", "")]
    ensures exists q :: Parse(Print(p, body)) == Parsed(q) && q.fields == [HeaderField("EXT", " ")]
  {
    hide Parse, Print, FirstWord, WellFormed;
    ParseOfPrint(p, body);
    assert Trim(" " + "") == " " by {
      assert TrimLeft(" "[1..]) == "";
    }
    hide Trim;
    assert Heard(p).fields == [HeaderField("EXT", " ")];
  }

  // ----- the texts themselves

  lemma OneFieldText(start: string, name: string, value: string, body: string)
    ensures start + CRLF + PrintFields([HeaderField(name, value)]) + CRLF + body
      == start + "\r\n" + name + ": " + value + "\r\n\r\n" + body
  {
    var line := name + ": " + value;
    assert PrintFields([HeaderField(name, value)]) == line + CRLF by {
      assert [HeaderField(name, value)][1..] == [] && PrintFields([]) == "" && line + CRLF + "" == line + CRLF;
    }
    hide PrintFields;
    assert CRLF + CRLF == "\r\n\r\n";
    Sequences.Assoc(start + CRLF, line, CRLF);
    Sequences.Assoc(start + CRLF + line, CRLF, CRLF);
    Sequences.Assoc(start + CRLF, name, ": ");
    Sequences.Assoc(start + CRLF, name + ": ", value);
  }

  /** A request line, one header line and a body, as they stand on the wire. */
  lemma RequestIsRead(directive: string, target: string, version: string, name: string, value: string, body: string)
    requires '\n' !in directive && ' ' !in directive && !("HTTP/" <= directive)
    requires '\n' !in target && ' ' !in target
    requires '\n' !in version && ' ' !in version && '/' !in version
    requires '\n' !in name && ':' !in name && '\n' !in value && Trimmed(value)
    ensures Parse(directive + " " + target + " HTTP/" + version + "\r\n" + name + ": " + value + "\r\n\r\n" + body)
      == Parsed(Packet(-1, "", directive, target, version, [HeaderField(name, value)]))
  {
    var p := Packet(-1, "", directive, target, version, [HeaderField(name, value)]);
    assert WellFormed(p);
    hide Parse, Trimmed, WellFormed;
    RoundTrip(p, body);
    OneFieldText(directive + " " + target + " HTTP/" + version, name, value, body);
    assert Print(p, body) == directive + " " + target + " HTTP/" + version + CRLF + PrintFields(p.fields) + CRLF + body;
  }

  /** The same for a status line, of whose text the first word is kept. */
  lemma ResponseIsRead(version: string, code: nat, text: string, name: string, value: string, body: string)
    requires '\n' !in version && ' ' !in version && '/' !in version && code <= INT_MAX
    requires '\n' !in text && ' ' !in text
    requires '\n' !in name && ':' !in name && '\n' !in value && Trimmed(value)
    ensures Parse("HTTP/" + version + " " + PrintNat(code, 10) + " " + text + "\r\n" + name + ": " + value
                  + "\r\n\r\n" + body)
      == Parsed(Packet(code, text, "", "", version, [HeaderField(name, value)]))
  {
    var p := Packet(code, text, "", "", version, [HeaderField(name, value)]);
    assert WellFormed(p);
    hide Parse, Trimmed, WellFormed, PrintNat;
    RoundTrip(p, body);
    var start := "HTTP/" + version + " " + PrintNat(code, 10) + " " + text;
    OneFieldText(start, name, value, body);
    assert Print(p, body) == start + CRLF + PrintFields(p.fields) + CRLF + body;
  }
}
