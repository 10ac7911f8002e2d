/** A reader of XML texts that are made of tags and contents, apart from what writes them: the tags are what
    stands between angle brackets, the attributes of a tag what stands between its quotes. */
module XmlReading {
  import opened Options
  import opened Splitter
  import opened PacketHeader
  import Sequences

  /** A tag without its brackets, and the text behind it. */
  datatype Node = Node(tag: string, content: string)

  function NodeOf(piece: string): Node {
    var i := Find(piece, ">");
    Node(piece[..i], if i < |piece| then piece[i + 1..] else "")
  }

  /** What stands in front of the first tag is left out. */
  function Nodes(text: string): seq<Node> {
    var pieces := Split(text, "<");
    seq(|pieces| - 1, k requires 0 <= k < |pieces| - 1 => NodeOf(pieces[k + 1]))
  }

  /** The text behind the first tag of this kind. */
  function Content(ns: seq<Node>, tag: string): Option<string> {
    if ns == [] then None
    else if ns[0].tag == tag then Some(ns[0].content) else Content(ns[1..], tag)
  }

  predicate EndsWith(s: string, t: string) {
    |t| <= |s| && s[|s| - |t|..] == t
  }

  function AttributeIn(parts: seq<string>, name: string): Option<string> {
    if |parts| < 2 then None
    else if EndsWith(parts[0], " " + name + "=") then Some(parts[1]) else AttributeIn(parts[2..], name)
  }

  /** The value of an attribute: the quoted text behind its name. */
  function ValueOf(tag: string, name: string): Option<string> {
    AttributeIn(Split(tag, "\""), name)
  }

  // ----- texts that are read back

  function Text(ns: seq<Node>): string {
    if ns == [] then "" else "<" + ns[0].tag + ">" + ns[0].content + Text(ns[1..])
  }

  predicate Readable(n: Node) {
    '<' !in n.tag && '>' !in n.tag && '<' !in n.content
  }

  function Piece(n: Node): string {
    n.tag + ">" + n.content
  }

  function Pieces(ns: seq<Node>): (r: seq<string>)
    ensures |r| == |ns| && forall k :: 0 <= k < |ns| ==> r[k] == Piece(ns[k])
  {
    seq(|ns|, k requires 0 <= k < |ns| => Piece(ns[k]))
  }

  lemma {:induction false} TextIsJoin(before: string, ns: seq<Node>)
    ensures before + Text(ns) == Join([before] + Pieces(ns), "<")
    decreases |ns|
  {
    if ns == [] {
      assert [before] + Pieces(ns) == [before];
    } else {
      var rest := ns[1..];
      assert Pieces(ns) == [Piece(ns[0])] + Pieces(rest);
      TextIsJoin(Piece(ns[0]), rest);
      JoinCons(before, Pieces(ns), "<");
      hide Join;
      assert before + Text(ns) == before + "<" + (Piece(ns[0]) + Text(rest)) by {
        hide Pieces, Text;
        OpenPieces(before, ns[0].tag, ns[0].content, Text(rest));
        assert Text(ns) == "<" + ns[0].tag + ">" + ns[0].content + Text(rest) by {
          TextUnfolds(ns);
        }
      }
    }
  }

  lemma TextUnfolds(ns: seq<Node>)
    requires ns != []
    ensures Text(ns) == "<" + ns[0].tag + ">" + ns[0].content + Text(ns[1..])
  {
  }

  lemma OpenPieces(before: string, tag: string, content: string, rest: string)
    ensures before + ("<" + tag + ">" + content + rest) == before + "<" + (tag + ">" + content + rest)
  {
  }

  lemma NodeOfPiece(n: Node)
    requires '>' !in n.tag
    ensures NodeOf(Piece(n)) == n
  {
    var p := Piece(n);
    forall k | 0 <= k < |n.tag| ensures !Occurs(p, ">", k) {
      assert p[k] == n.tag[k] && n.tag[k] in n.tag && p[k..][0] == p[k];
    }
    assert p[|n.tag|..] == ">" + n.content;
    FindIs(p, ">", |n.tag|);
    assert p[..|n.tag|] == n.tag && p[|n.tag| + 1..] == n.content;
  }

  lemma PiecesAreFree(before: string, ns: seq<Node>)
    requires '<' !in before && forall n :: n in ns ==> Readable(n)
    ensures forall p :: p in [before] + Pieces(ns) ==> Free(p, "<")
  {
    forall p | p in [before] + Pieces(ns) ensures Free(p, "<") {
      if p == before {
        FreeOfChar(before, '<');
      } else {
        var k :| 0 <= k < |ns| && p == Piece(ns[k]);
        assert ns[k] in ns;
        FreeOfChar(p, '<');
      }
    }
  }

  /** Nodes written behind one another are read as they are. */
  lemma NodesOfText(before: string, ns: seq<Node>)
    requires '<' !in before && forall n :: n in ns ==> Readable(n)
    ensures Nodes(before + Text(ns)) == ns
  {
    hide *;
    TextIsJoin(before, ns);
    SingleIsUnbordered('<');
    PiecesAreFree(before, ns);
    SplitOfJoin([before] + Pieces(ns), "<");
    NodesAre(before + Text(ns), before, ns);
  }

  lemma NodesAre(text: string, before: string, ns: seq<Node>)
    requires Split(text, "<") == [before] + Pieces(ns) && forall n :: n in ns ==> Readable(n)
    ensures Nodes(text) == ns
  {
    hide Split, NodeOf, Piece;
    forall k | 0 <= k < |ns| ensures Nodes(text)[k] == ns[k] {
      assert ns[k] in ns && Split(text, "<")[k + 1] == Piece(ns[k]);
      NodeOfPiece(ns[k]);
    }
  }

  lemma {:induction false} TextJoin(a: seq<Node>, b: seq<Node>)
    ensures Text(a + b) == Text(a) + Text(b)
  {
    if a == [] {
      assert a + b == b;
    } else {
      assert (a + b)[0] == a[0] && (a + b)[1..] == a[1..] + b;
      TextJoin(a[1..], b);
      Sequences.Assoc("<" + a[0].tag + ">" + a[0].content, Text(a[1..]), Text(b));
    }
  }

  lemma {:induction false} ContentJoin(a: seq<Node>, b: seq<Node>, tag: string)
    ensures Content(a + b, tag) == if Content(a, tag).Some? then Content(a, tag) else Content(b, tag)
  {
    if a == [] {
      assert a + b == b;
    } else {
      assert (a + b)[0] == a[0] && (a + b)[1..] == a[1..] + b;
      ContentJoin(a[1..], b, tag);
    }
  }

  lemma {:induction false} NoContent(ns: seq<Node>, tag: string)
    requires forall k :: 0 <= k < |ns| ==> ns[k].tag != tag
    ensures Content(ns, tag) == None
  {
    if ns != [] {
      NoContent(ns[1..], tag);
    }
  }

  // ----- tags with attributes

  datatype Pair = Pair(name: string, value: string)

  function Tag(name: string, attributes: seq<Pair>): string
    decreases |attributes|
  {
    if attributes == [] then name
    else
      var a := attributes[0];
      name + " " + a.name + "=" + "\"" + a.value + "\"" + Tag("", attributes[1..])
  }

  function Parts(name: string, attributes: seq<Pair>): seq<string>
    decreases |attributes|
  {
    if attributes == [] then [name]
    else [name + " " + attributes[0].name + "=", attributes[0].value] + Parts("", attributes[1..])
  }

  function First(attributes: seq<Pair>, name: string): Option<string> {
    if attributes == [] then None
    else if attributes[0].name == name then Some(attributes[0].value) else First(attributes[1..], name)
  }

  /** Names have no blanks and quotes, values no quotes. */
  predicate Fine(attributes: seq<Pair>) {
    forall k :: 0 <= k < |attributes| ==>
      ' ' !in attributes[k].name && '"' !in attributes[k].name && '"' !in attributes[k].value
  }

  lemma {:induction false} SplitOfTag(name: string, attributes: seq<Pair>)
    requires '"' !in name && Fine(attributes)
    ensures Split(Tag(name, attributes), "\"") == Parts(name, attributes)
    decreases |attributes|
  {
    hide Split;
    if attributes == [] {
      Whole(name);
    } else {
      var a, rest := attributes[0], Tag("", attributes[1..]);
      var head := name + " " + a.name + "=";
      SplitOfTag("", attributes[1..]);
      hide Tag, Parts;
      TwoQuotes(head, a.value, rest);
      TagUnfolds(name, attributes);
      assert [head] + ([a.value] + Parts("", attributes[1..])) == [head, a.value] + Parts("", attributes[1..]);
    }
  }

  lemma TwoQuotes(head: string, value: string, rest: string)
    requires '"' !in head && '"' !in value
    ensures Split(head + "\"" + value + "\"" + rest, "\"") == [head] + ([value] + Split(rest, "\""))
  {
    hide Split, Unbordered;
    SingleIsUnbordered('"');
    Whole(head);
    Whole(value);
    SplitAt(value, rest, "\"");
    SplitAt(head, value + ("\"" + rest), "\"");
    TagPieces(head, value, rest);
  }

  lemma TagUnfolds(name: string, attributes: seq<Pair>)
    requires attributes != []
    ensures var a := attributes[0];
      var head := name + " " + a.name + "=";
      && Tag(name, attributes) == head + "\"" + a.value + "\"" + Tag("", attributes[1..])
      && Parts(name, attributes) == [head, a.value] + Parts("", attributes[1..])
  {
  }

  lemma Whole(s: string)
    requires '"' !in s
    ensures Split(s, "\"") == [s]
  {
    FreeOfChar(s, '"');
    SplitNone(s, "\"");
  }

  lemma TagPieces(head: string, value: string, rest: string)
    ensures head + "\"" + value + "\"" + rest == head + ("\"" + (value + ("\"" + rest)))
  {
  }

  lemma HeadEndsWith(name: string, a: string, b: string)
    requires ' ' !in a && ' ' !in b
    ensures EndsWith(name + " " + a + "=", " " + b + "=") <==> a == b
  {
    var s, t := name + " " + a + "=", " " + b + "=";
    if |a| == |b| {
      assert s[|s| - |t|..] == " " + a + "=";
      assert (" " + a + "=")[1..1 + |a|] == a && t[1..1 + |a|] == b;
    } else if |b| < |a| {
      var c := a[|a| - |b| - 1];
      assert c in a && s[|s| - |t|..][0] == c && t[0] == ' ';
    } else if |t| <= |s| {
      var c := b[|b| - |a| - 1];
      assert c in b && t[|b| - |a|] == c && s[|s| - |t|..][|b| - |a|] == ' ';
    }
  }

  lemma {:induction false} AttributeInParts(name: string, attributes: seq<Pair>, asked: string)
    requires Fine(attributes) && ' ' !in asked
    ensures AttributeIn(Parts(name, attributes), asked) == First(attributes, asked)
    decreases |attributes|
  {
    if attributes != [] {
      var a := attributes[0];
      HeadEndsWith(name, a.name, asked);
      assert Parts(name, attributes)[2..] == Parts("", attributes[1..]);
      hide EndsWith;
      AttributeInParts("", attributes[1..], asked);
    }
  }

  /** An attribute is read as its first value in the tag. */
  lemma AttributeOfTag(name: string, attributes: seq<Pair>, asked: string)
    requires '"' !in name && Fine(attributes) && ' ' !in asked
    ensures ValueOf(Tag(name, attributes), asked) == First(attributes, asked)
  {
    SplitOfTag(name, attributes);
    AttributeInParts(name, attributes, asked);
  }
}
