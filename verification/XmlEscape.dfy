/** The XML escapes of the parsing library and of the DIDL serialiser, and the unescape that works in
    the buffer it reads. */
module XmlEscape {
  import Sequences

  predicate Markup(c: char) {
    c == '"' || c == '\'' || c == '<' || c == '>'
  }

  predicate Special(c: char) {
    Markup(c) || c == '&'
  }

  function EntityName(c: char): (t: string)
    requires Special(c)
    ensures 3 <= |t| <= 5
  {
    if c == '"' then "quot;"
    else if c == '\'' then "apos;"
    else if c == '<' then "lt;"
    else if c == '>' then "gt;"
    else "amp;"
  }

  function EscapeChar(c: char): (t: string)
    ensures 0 < |t| <= 6
  {
    if Special(c) then "&" + EntityName(c) else [c]
  }

  function DoubleEscapeChar(c: char): string {
    if Special(c) then "&amp;" + EntityName(c) else [c]
  }

  function Escape(s: string): string {
    if s == "" then "" else EscapeChar(s[0]) + Escape(s[1..])
  }

  function DoubleEscape(s: string): string {
    if s == "" then "" else DoubleEscapeChar(s[0]) + DoubleEscape(s[1..])
  }

  /** The entity at the head of a text, as its length and its character; any other character is itself. */
  function Entity(t: string): (r: (nat, char))
    requires t != ""
    ensures 0 < r.0 <= |t|
  {
    if "&quot;" <= t then (6, '"')
    else if "&apos;" <= t then (6, '\'')
    else if "&amp;" <= t then (5, '&')
    else if "&lt;" <= t then (4, '<')
    else if "&gt;" <= t then (4, '>')
    else (1, t[0])
  }

  function Unescape(t: string): string {
    if t == "" then "" else [Entity(t).1] + Unescape(t[Entity(t).0..])
  }

  // ----- laws

  lemma EntityOfEscaped(c: char, t: string)
    ensures Entity(EscapeChar(c) + t) == (|EscapeChar(c)|, c)
  {
    var u := EscapeChar(c) + t;
    assert u[..|EscapeChar(c)|] == EscapeChar(c);
    assert |EscapeChar(c)| >= 2 ==> u[1] == EscapeChar(c)[1] && u[2] == EscapeChar(c)[2];
    assert u[0] == EscapeChar(c)[0];
  }

  /** Unescaping gives back what was escaped. */
  lemma {:induction false} UnescapeOfEscape(s: string)
    ensures Unescape(Escape(s)) == s
  {
    if s != "" {
      var head, rest := EscapeChar(s[0]), Escape(s[1..]);
      EntityOfEscaped(s[0], rest);
      Sequences.DropAll(head, rest);
      hide EscapeChar, Entity;
      UnescapeOfEscape(s[1..]);
    }
  }

  lemma {:induction false} EscapeJoin(a: string, b: string)
    ensures Escape(a + b) == Escape(a) + Escape(b)
  {
    hide EscapeChar;
    if a == "" {
      assert a + b == b;
    } else {
      assert (a + b)[0] == a[0] && (a + b)[1..] == a[1..] + b;
      EscapeJoin(a[1..], b);
      Sequences.Assoc(EscapeChar(a[0]), Escape(a[1..]), Escape(b));
    }
  }

  /** The five entities of XML. */
  lemma EscapeOfOne(c: char)
    ensures Escape([c]) ==
      if c == '<' then "&lt;" else if c == '>' then "&gt;" else if c == '&' then "&amp;"
      else if c == '"' then "&quot;" else if c == '\'' then "&apos;" else [c]
  {
    assert [c][1..] == "" && EscapeChar(c) + "" == EscapeChar(c);
  }

  /** Of a text that starts with an entity the unescape takes that entity, of any other one its first character. */
  lemma UnescapeOfEntity(rest: string)
    ensures Unescape("&lt;" + rest) == ['<'] + Unescape(rest) && Unescape("&gt;" + rest) == ['>'] + Unescape(rest)
    ensures Unescape("&amp;" + rest) == ['&'] + Unescape(rest) && Unescape("&quot;" + rest) == ['"'] + Unescape(rest)
    ensures Unescape("&apos;" + rest) == ['\''] + Unescape(rest)
  {
    hide EscapeChar, Unescape;
    EntityTexts();
    EntityIsRead('<', rest);
    EntityIsRead('>', rest);
    EntityIsRead('&', rest);
    EntityIsRead('"', rest);
    EntityIsRead('\'', rest);
  }

  lemma EntityTexts()
    ensures EscapeChar('<') == "&lt;" && EscapeChar('>') == "&gt;" && EscapeChar('&') == "&amp;"
    ensures EscapeChar('"') == "&quot;" && EscapeChar('\'') == "&apos;"
  {
  }

  lemma EntityIsRead(c: char, rest: string)
    ensures Unescape(EscapeChar(c) + rest) == [c] + Unescape(rest)
  {
    EntityOfEscaped(c, rest);
    Sequences.DropAll(EscapeChar(c), rest);
    hide EscapeChar, Entity;
  }

  lemma UnescapeOfOther(t: string)
    requires t != ""
    requires !("&lt;" <= t) && !("&gt;" <= t) && !("&amp;" <= t) && !("&quot;" <= t) && !("&apos;" <= t)
    ensures Unescape(t) == [t[0]] + Unescape(t[1..])
  {
  }

  predicate Plain(s: string) {
    forall k :: 0 <= k < |s| ==> EscapeChar(s[k]) == [s[k]]
  }

  lemma {:induction false} EscapeOfPlain(s: string)
    requires Plain(s)
    ensures Escape(s) == s
  {
    if s != "" {
      assert EscapeChar(s[0]) == [s[0]];
      EscapeOfPlain(s[1..]);
    }
  }

  lemma EscapeOfEntity(rest: string)
    requires Plain(rest)
    ensures Escape("&" + rest) == "&amp;" + rest
  {
    EscapeOfPlain(rest);
    var s := "&" + rest;
    assert EscapeChar('&') == "&amp;";
    hide Plain, EscapeChar;
    assert s[0] == '&' && s[1..] == rest;
  }

  lemma NameIsPlain(c: char)
    requires Special(c)
    ensures Plain(EntityName(c))
  {
    var t := EntityName(c);
    assert forall k :: 0 <= k < |t| ==> !Special(t[k]);
  }

  lemma EscapeOfEscapedChar(c: char)
    ensures Escape(EscapeChar(c)) == DoubleEscapeChar(c)
  {
    if Special(c) {
      NameIsPlain(c);
      EscapeOfEntity(EntityName(c));
    } else {
      EscapeOfPlain([c]);
    }
    hide Escape;
  }

  /** The double escape is the escape applied twice. */
  lemma {:induction false} DoubleIsTwice(s: string)
    ensures DoubleEscape(s) == Escape(Escape(s))
  {
    if s != "" {
      EscapeOfEscapedChar(s[0]);
      DoubleIsTwice(s[1..]);
      EscapeJoin(EscapeChar(s[0]), Escape(s[1..]));
    }
  }

  /** So two unescapes recover the text. */
  lemma TwoUnescapes(s: string)
    ensures Unescape(Unescape(DoubleEscape(s))) == s
  {
    DoubleIsTwice(s);
    UnescapeOfEscape(Escape(s));
    UnescapeOfEscape(s);
  }

  /** No markup character and no terminator is left in an escaped text. */
  lemma {:induction false} EscapedIsClean(s: string)
    ensures forall k :: 0 <= k < |Escape(s)| ==> !Markup(Escape(s)[k])
    ensures (forall k :: 0 <= k < |s| ==> s[k] != '\0') ==> forall k :: 0 <= k < |Escape(s)| ==> Escape(s)[k] != '\0'
  {
    if s != "" {
      hide EscapeChar;
      EscapedIsClean(s[1..]);
      CharIsClean(s[0]);
    }
  }

  lemma CharIsClean(c: char)
    ensures forall k :: 0 <= k < |EscapeChar(c)| ==> !Markup(EscapeChar(c)[k])
    ensures c != '\0' ==> forall k :: 0 <= k < |EscapeChar(c)| ==> EscapeChar(c)[k] != '\0'
  {
  }

  // ----- the writers and their length functions

  method XmlEscapeLength(data: string) returns (j: nat)
    ensures j == |Escape(data)|
  {
    var i := 0;
    j := 0;
    assert data[..0] == "";
    while i < |data|
      invariant i <= |data| && j == |Escape(data[..i])|
    {
      EscapeMore(data, i);
      match data[i] {
        case '"' => j := j + 6;
        case '\'' => j := j + 6;
        case '<' => j := j + 4;
        case '>' => j := j + 4;
        case '&' => j := j + 5;
        case _ => j := j + 1;
      }
      i := i + 1;
    }
    assert data[..i] == data;
  }

  lemma EscapeMore(s: string, i: nat)
    requires i < |s|
    ensures Escape(s[..i + 1]) == Escape(s[..i]) + EscapeChar(s[i])
    ensures |Escape(s[..i + 1])| <= |Escape(s)|
  {
    hide EscapeChar;
    assert s[..i + 1] == s[..i] + [s[i]] && s == s[..i + 1] + s[i + 1..];
    EscapeJoin(s[..i], [s[i]]);
    EscapeJoin(s[..i + 1], s[i + 1..]);
    assert [s[i]][1..] == "";
  }

  method XmlEscape(outdata: array<char>, indata: string) returns (len: nat)
    requires |Escape(indata)| < outdata.Length
    modifies outdata
    ensures len == |Escape(indata)| && outdata[..len] == Escape(indata) && outdata[len] == '\0'
  {
    var out: nat := 0;
    assert indata[..0] == "" && Escape("") == "";
    hide EscapeChar, Escape;
    for i := 0 to |indata|
      invariant out < outdata.Length && outdata[..out] == Escape(indata[..i])
    {
      EscapeMore(indata, i);
      out := Copy(outdata, out, EscapeChar(indata[i]));
    }
    assert indata[..|indata|] == indata;
    outdata[out] := '\0';
    len := out;
  }

  method Copy(outdata: array<char>, at: nat, t: string) returns (end: nat)
    requires at + |t| < outdata.Length
    modifies outdata
    ensures end == at + |t| && outdata[..end] == old(outdata[..at]) + t
  {
    for k := 0 to |t|
      invariant outdata[..at + k] == old(outdata[..at]) + t[..k]
    {
      outdata[at + k] := t[k];
    }
    end := at + |t|;
  }

  method DoubleEscapeLength(data: string) returns (j: nat)
    ensures j == |DoubleEscape(data)|
  {
    var i := 0;
    j := 0;
    assert data[..0] == "";
    while i < |data|
      invariant i <= |data| && j == |DoubleEscape(data[..i])|
    {
      DoubleEscapeMore(data, i);
      match data[i] {
        case '"' => j := j + 10;
        case '\'' => j := j + 10;
        case '<' => j := j + 8;
        case '>' => j := j + 8;
        case '&' => j := j + 9;
        case _ => j := j + 1;
      }
      i := i + 1;
    }
    assert data[..i] == data;
  }

  lemma DoubleEscapeMore(s: string, i: nat)
    requires i < |s|
    ensures DoubleEscape(s[..i + 1]) == DoubleEscape(s[..i]) + DoubleEscapeChar(s[i])
    ensures |DoubleEscape(s[..i + 1])| <= |DoubleEscape(s)|
  {
    hide EscapeChar, DoubleEscapeChar;
    assert s[..i + 1] == s[..i] + [s[i]] && s == s[..i + 1] + s[i + 1..];
    DoubleEscapeJoin(s[..i], [s[i]]);
    DoubleEscapeJoin(s[..i + 1], s[i + 1..]);
    assert [s[i]][1..] == "";
  }

  lemma DoubleEscapeJoin(a: string, b: string)
    ensures DoubleEscape(a + b) == DoubleEscape(a) + DoubleEscape(b)
  {
    DoubleIsTwice(a);
    DoubleIsTwice(b);
    DoubleIsTwice(a + b);
    EscapeJoin(a, b);
    EscapeJoin(Escape(a), Escape(b));
  }

  method DoubleEscapeInto(outdata: array<char>, indata: string) returns (len: nat)
    requires |DoubleEscape(indata)| < outdata.Length
    modifies outdata
    ensures len == |DoubleEscape(indata)| && outdata[..len] == DoubleEscape(indata) && outdata[len] == '\0'
  {
    var out: nat := 0;
    assert indata[..0] == "" && DoubleEscape("") == "";
    hide DoubleEscapeChar, DoubleEscape;
    for i := 0 to |indata|
      invariant out < outdata.Length && outdata[..out] == DoubleEscape(indata[..i])
    {
      DoubleEscapeMore(indata, i);
      out := Copy(outdata, out, DoubleEscapeChar(indata[i]));
    }
    assert indata[..|indata|] == indata;
    outdata[out] := '\0';
    len := out;
  }

  // ----- the unescape in place

  predicate Terminated(buffer: seq<char>, n: nat) {
    n < |buffer| && buffer[n] == '\0' && forall k :: 0 <= k < n ==> buffer[k] != '\0'
  }

  /** The tests of one position: no character behind the terminator is looked at. */
  method EntityAt(data: array<char>, n: nat, j: nat) returns (width: nat, c: char)
    requires n < data.Length && data[n] == '\0' && j < n
    ensures (width, c) == Entity(data[j..n])
  {
    ghost var t := data[j..n];
    assert forall k :: 0 <= k < |t| ==> t[k] == data[j + k];
    if data[j] == '&' && data[j + 1] == 'q' && data[j + 2] == 'u'
       && data[j + 3] == 'o' && data[j + 4] == 't' && data[j + 5] == ';' {
      width, c := 6, '"';
    } else if data[j] == '&' && data[j + 1] == 'a' && data[j + 2] == 'p'
       && data[j + 3] == 'o' && data[j + 4] == 's' && data[j + 5] == ';' {
      width, c := 6, '\'';
    } else if data[j] == '&' && data[j + 1] == 'a' && data[j + 2] == 'm' && data[j + 3] == 'p' && data[j + 4] == ';' {
      width, c := 5, '&';
    } else if data[j] == '&' && data[j + 1] == 'l' && data[j + 2] == 't' && data[j + 3] == ';' {
      width, c := 4, '<';
    } else if data[j] == '&' && data[j + 1] == 'g' && data[j + 2] == 't' && data[j + 3] == ';' {
      width, c := 4, '>';
    } else {
      width, c := 1, data[j];
    }
    EntityByChars(t);
    hide Entity;
  }

  lemma EntityByChars(t: string)
    requires t != ""
    ensures Entity(t) ==
      if |t| >= 6 && t[0] == '&' && t[1] == 'q' && t[2] == 'u' && t[3] == 'o' && t[4] == 't' && t[5] == ';'
      then (6, '"')
      else if |t| >= 6 && t[0] == '&' && t[1] == 'a' && t[2] == 'p' && t[3] == 'o' && t[4] == 's' && t[5] == ';'
      then (6, '\'')
      else if |t| >= 5 && t[0] == '&' && t[1] == 'a' && t[2] == 'm' && t[3] == 'p' && t[4] == ';' then (5, '&')
      else if |t| >= 4 && t[0] == '&' && t[1] == 'l' && t[2] == 't' && t[3] == ';' then (4, '<')
      else if |t| >= 4 && t[0] == '&' && t[1] == 'g' && t[2] == 't' && t[3] == ';' then (4, '>')
      else (1, t[0])
  {
  }

  /** ILibInPlaceXmlUnEscape on a terminated text of length n. */
  method InPlaceUnescape(data: array<char>, n: nat) returns (len: nat)
    requires Terminated(data[..], n)
    modifies data
    ensures len <= n && data[..len] == Unescape(old(data[..n])) && data[len] == '\0'
    ensures data[n + 1..] == old(data[n + 1..])
  {
    len := UnescapeAll(data, n);
    Sequences.DropDrop(data[..], n, 1);
    Sequences.DropDrop(old(data[..]), n, 1);
    WriteAt(data, len, '\0', n + 1);
  }

  method UnescapeAll(data: array<char>, n: nat) returns (i: nat)
    requires Terminated(data[..], n)
    modifies data
    ensures i <= n && data[..i] == Unescape(old(data[..n])) && data[n..] == old(data[n..])
  {
    assert data.Length > n && data[n] == '\0';
    hide Unescape, Terminated;
    ghost var orig := data[..];
    ghost var text := orig[..n];
    NothingToUnescape();
    assert text[0..] == text && text[n..] == "";
    i := 0;
    var j := 0;
    assert data[..0] + Unescape(text) == Unescape(text);
    while j < n
      invariant i <= j <= n
      invariant data[j..] == orig[j..]
      invariant data[..i] + Unescape(text[j..]) == Unescape(text)
    {
      var width := UnescapeOne(data, i, j, n, orig);
      i, j := i + 1, j + width;
    }
  }

  lemma NothingToUnescape()
    ensures Unescape("") == ""
  {
  }

  /** One entity or character moves from the reader's position to the writer's. */
  method UnescapeOne(data: array<char>, i: nat, j: nat, n: nat, ghost orig: seq<char>) returns (width: nat)
    requires i <= j < n < |orig| == data.Length && orig[n] == '\0' && data[j..] == orig[j..]
    modifies data
    ensures 0 < width <= n - j && data[j + width..] == orig[j + width..]
    ensures data[..i + 1] + Unescape(orig[..n][j + width..]) == old(data[..i]) + Unescape(orig[..n][j..])
  {
    hide Unescape, Entity;
    Sequences.SameEnd(data[..], orig, j, n);
    var c;
    width, c := EntityAt(data, n, j);
    UnescapeStep(data[..i], orig[..n], j);
    Sequences.DropDrop(orig, j, width);
    Sequences.DropDrop(data[..], j, width);
    WriteAt(data, i, c, j + width);
  }

  lemma UnescapeStep(done: string, text: string, j: nat)
    requires j < |text|
    ensures done + Unescape(text[j..]) == done + [Entity(text[j..]).1] + Unescape(text[j + Entity(text[j..]).0..])
  {
    var e := Entity(text[j..]);
    hide Entity;
    Sequences.DropDrop(text, j, e.0);
    Sequences.Assoc(done, [e.1], Unescape(text[j + e.0..]));
  }

  /** The writer is behind the reader, so what is still to be read stays. */
  method WriteAt(data: array<char>, i: nat, c: char, j: nat)
    requires i < j <= data.Length
    modifies data
    ensures data[..i] + [c] == data[..i + 1] && data[..i] == old(data[..i]) && data[i] == c
    ensures data[j..] == old(data[j..])
  {
    data[i] := c;
  }
}
