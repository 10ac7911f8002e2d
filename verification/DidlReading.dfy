/** What the DIDL-Lite text says: a reader that unescapes it once and takes it apart at angle brackets and
    quotes finds the object in it. */
module DidlReading {
  import opened Options
  import opened Numbers
  import opened DidlSize
  import opened XmlReading
  import Filter = DidlFilter
  import PacketHeader
  import Sequences
  import Splitter
  import XmlEscape

  // ----- metadata in the text

  /** Metadata of which the caller says that it is escaped has no quotes and angle brackets. */
  predicate Clean(s: string) {
    '"' !in s && '<' !in s && '>' !in s
  }

  /** Metadata as it stands in the text that has been unescaped once. */
  function Meta(s: string, e: bool): string {
    if e then s else XmlEscape.Escape(s)
  }

  /** From it the metadata is recovered. */
  predicate Recovers(v: string, s: string, e: bool) {
    (if e then v else XmlEscape.Unescape(v)) == s
  }

  lemma MetaRecovers(s: string, e: bool)
    ensures Recovers(Meta(s, e), s, e)
  {
    XmlEscape.UnescapeOfEscape(s);
  }

  lemma MetaIsEscaped(s: string, e: bool)
    ensures Escaped(s, e) == XmlEscape.Escape(Meta(s, e))
  {
    XmlEscape.DoubleIsTwice(s);
  }

  lemma MetaIsClean(s: string, e: bool)
    requires e ==> Clean(s)
    ensures Clean(Meta(s, e))
  {
    XmlEscape.EscapedIsClean(s);
    hide XmlEscape.Escape;
  }

  predicate Unmarked(s: string) {
    forall k :: 0 <= k < |s| ==> !XmlEscape.Special(s[k])
  }

  lemma UnmarkedIsItself(s: string)
    requires Unmarked(s)
    ensures XmlEscape.Escape(s) == s && Clean(s)
  {
    XmlEscape.EscapeOfPlain(s);
    hide XmlEscape.Escape;
    assert forall c :: c in s ==> !XmlEscape.Special(c);
  }

  lemma NumeralIsUnmarked(n: nat)
    ensures Unmarked(PrintNat(n, 10))
  {
    PrintedDigits(n, 10);
    hide PrintNat;
  }

  lemma DecimalIsUnmarked(n: int)
    ensures Unmarked(Decimal(n))
  {
    NumeralIsUnmarked(if n < 0 then -n else n);
    hide PrintNat;
  }

  lemma TimeIsUnmarked(seconds: int, time: string)
    requires seconds <= 0 ==> Unmarked(time)
    ensures Unmarked(TimeString(seconds, time))
  {
    hide TwoDigits;
    if seconds > 0 {
      TwoAreUnmarked(seconds / 3600 % 60);
      TwoAreUnmarked(seconds / 60 % 60);
      TwoAreUnmarked(seconds % 60);
    }
  }

  lemma TwoAreUnmarked(n: nat)
    ensures Unmarked(TwoDigits(n))
  {
    NumeralIsUnmarked(n);
    hide PrintNat;
  }

  // ----- attributes

  /** A duration of 0 prints the time buffer. */
  predicate Timely(r: Resource, time: string) {
    r.duration == 0 ==> Unmarked(time)
  }

  function PlainValue(a: Attribute, r: Resource, e: bool, time: string): string {
    if a.Protection? then Meta(r.protection.GetOr(""), e) else Value(a, r, e, time)
  }

  lemma ValueIsEscaped(a: Attribute, r: Resource, e: bool, time: string)
    requires Printed(a, r) && Timely(r, time) && (e ==> Clean(r.protection.GetOr("")))
    ensures Value(a, r, e, time) == XmlEscape.Escape(PlainValue(a, r, e, time)) && Clean(PlainValue(a, r, e, time))
  {
    if a.Protection? {
      MetaIsEscaped(r.protection.GetOr(""), e);
      MetaIsClean(r.protection.GetOr(""), e);
    } else {
      ValueIsUnmarked(a, r, e, time);
      UnmarkedIsItself(Value(a, r, e, time));
    }
    hide Value, Meta, Escaped, XmlEscape.Escape;
  }

  lemma ValueIsUnmarked(a: Attribute, r: Resource, e: bool, time: string)
    requires Printed(a, r) && Timely(r, time) && !a.Protection?
    ensures Unmarked(Value(a, r, e, time))
  {
    hide Decimal, TimeString;
    match a
    case Bitrate => DecimalIsUnmarked(r.bitrate / 8);
    case BitsPerSample => DecimalIsUnmarked(r.bitsPerSample);
    case ColorDepth => DecimalIsUnmarked(r.colorDepth);
    case Duration => TimeIsUnmarked(r.duration, time);
    case NrAudioChannels => DecimalIsUnmarked(r.nrAudioChannels);
    case Resolution =>
      DecimalIsUnmarked(r.resolutionX);
      DecimalIsUnmarked(r.resolutionY);
    case SampleFrequency => DecimalIsUnmarked(r.sampleFrequency);
    case Size => DecimalIsUnmarked(r.size);
  }

  function Pairs(attributes: seq<Attribute>, r: Resource, shown: bv32, e: bool, time: string): seq<Pair> {
    if attributes == [] then []
    else
      var a := attributes[0];
      (if Printed(a, r) && Has(shown, Flag(a)) then [Pair(Name(a), PlainValue(a, r, e, time))] else [])
      + Pairs(attributes[1..], r, shown, e, time)
  }

  lemma EscapeOfThree(a: string, b: string, c: string)
    ensures XmlEscape.Escape(a + b + c) == XmlEscape.Escape(a) + XmlEscape.Escape(b) + XmlEscape.Escape(c)
  {
    XmlEscape.EscapeJoin(a + b, c);
    XmlEscape.EscapeJoin(a, b);
    hide XmlEscape.Escape;
  }

  /** The pieces between metadata. */
  lemma Literals()
    ensures XmlEscape.Escape("\"") == "&quot;" && XmlEscape.Escape("<") == "&lt;" && XmlEscape.Escape(">") == "&gt;"
    ensures XmlEscape.Escape("=\"") == "=&quot;" && XmlEscape.Escape("\r\n<") == "\r\n&lt;"
    ensures XmlEscape.Escape("=") == "=" && XmlEscape.Escape("</") == "&lt;/" && XmlEscape.Escape(" ") == " "
  {
  }

  lemma NameIsUnmarked(a: Attribute)
    ensures Unmarked(Name(a)) && ' ' !in Name(a)
  {
    var name := Name(a);
    assert forall k :: 0 <= k < |name| ==> 'A' <= name[k] <= 'z';
    assert forall c :: c in name ==> 'A' <= c <= 'z';
  }

  lemma EscapeOfPair(name: string, value: string, rest: string)
    requires Unmarked(name)
    ensures XmlEscape.Escape("" + " " + name + "=" + "\"" + value + "\"" + rest)
      == " " + name + "=&quot;" + XmlEscape.Escape(value) + "&quot;" + XmlEscape.Escape(rest)
  {
    hide XmlEscape.Escape, Unmarked;
    Literals();
    UnmarkedIsItself(name);
    var start := "" + " " + name;
    var open := start + "=" + "\"";
    EscapeOfThree("" + " ", name, "=");
    assert "" + " " == " ";
    XmlEscape.EscapeJoin(start + "=", "\"");
    EscapeOfThree(open, value, "\"");
    XmlEscape.EscapeJoin(open + value + "\"", rest);
    Sequences.Assoc(" " + name, XmlEscape.Escape("="), "&quot;");
    assert XmlEscape.Escape("=") + "&quot;" == "=&quot;";
  }

  lemma {:induction false} PairsAreWritten(attributes: seq<Attribute>, r: Resource, shown: bv32, e: bool, time: string)
    requires Timely(r, time) && (e ==> Clean(r.protection.GetOr("")))
    ensures XmlEscape.Escape(Tag("", Pairs(attributes, r, shown, e, time)))
      == AttributesText(attributes, r, shown, e, time)
  {
    hide XmlEscape.Escape, Printed, Has, Flag, Name, Value, PlainValue, Timely, Clean, Tag, AttributeText;
    if attributes == [] {
      NoPairs();
    } else {
      var a, rest := attributes[0], attributes[1..];
      var ps := Pairs(rest, r, shown, e, time);
      PairsAreWritten(rest, r, shown, e, time);
      if Printed(a, r) && Has(shown, Flag(a)) {
        OnePairIsWritten(a, r, e, time, ps);
      } else {
        assert Pairs(attributes, r, shown, e, time) == ps;
      }
    }
  }

  lemma NoPairs()
    ensures XmlEscape.Escape(Tag("", [])) == ""
  {
  }

  lemma OnePairIsWritten(a: Attribute, r: Resource, e: bool, time: string, ps: seq<Pair>)
    requires Printed(a, r) && Timely(r, time) && (e ==> Clean(r.protection.GetOr("")))
    ensures XmlEscape.Escape(Tag("", [Pair(Name(a), PlainValue(a, r, e, time))] + ps))
      == AttributeText(a, r, e, time) + XmlEscape.Escape(Tag("", ps))
  {
    ValueIsEscaped(a, r, e, time);
    NameIsUnmarked(a);
    hide XmlEscape.Escape, Printed, Name, Value, PlainValue, Timely, Clean, Unmarked;
    EscapeOfPair(Name(a), PlainValue(a, r, e, time), Tag("", ps));
    TagUnfolds("", [Pair(Name(a), PlainValue(a, r, e, time))] + ps);
  }

  lemma {:induction false} PairsAreFine(attributes: seq<Attribute>, r: Resource, shown: bv32, e: bool, time: string)
    requires Timely(r, time) && (e ==> Clean(r.protection.GetOr("")))
    ensures forall p :: p in Pairs(attributes, r, shown, e, time) ==>
      ' ' !in p.name && Clean(p.name) && Clean(p.value)
  {
    hide Printed, Has, Flag, Name, Value, PlainValue, Timely, Clean;
    if attributes != [] {
      var a := attributes[0];
      PairsAreFine(attributes[1..], r, shown, e, time);
      if Printed(a, r) {
        ValueIsEscaped(a, r, e, time);
        NameIsUnmarked(a);
        UnmarkedIsItself(Name(a));
      }
    }
  }

  // ----- tags and contents

  /** The text, unescaped, has these nodes, when every line end in front of a tag is read as the content of the
      one before it. */
  ghost predicate Writes(t: string, ns: seq<Node>) {
    exists p :: t == XmlEscape.Escape(p) && p + "\r\n" == "\r\n" + Text(ns)
  }

  lemma WritesIt(t: string, p: string, ns: seq<Node>)
    requires t == XmlEscape.Escape(p) && p + "\r\n" == "\r\n" + Text(ns)
    ensures Writes(t, ns)
  {
  }

  lemma WritesJoin(t: string, ns: seq<Node>, u: string, ms: seq<Node>)
    requires Writes(t, ns) && Writes(u, ms)
    ensures Writes(t + u, ns + ms)
  {
    var p :| t == XmlEscape.Escape(p) && p + "\r\n" == "\r\n" + Text(ns);
    var q :| u == XmlEscape.Escape(q) && q + "\r\n" == "\r\n" + Text(ms);
    XmlEscape.EscapeJoin(p, q);
    TextJoin(ns, ms);
    hide XmlEscape.Escape, Text;
    calc {
      p + q + "\r\n";
      { Sequences.Assoc(p, q, "\r\n"); }
      p + ("\r\n" + Text(ms));
      { Sequences.Assoc(p, "\r\n", Text(ms)); }
      "\r\n" + Text(ns) + Text(ms);
      { Sequences.Assoc("\r\n", Text(ns), Text(ms)); }
      "\r\n" + Text(ns + ms);
    }
    WritesIt(t + u, p + q, ns + ms);
  }

  lemma WritesNothing()
    ensures Writes("", [])
  {
    assert XmlEscape.Escape("") == "" && "" + "\r\n" == "\r\n" + Text([]);
  }

  /** An element that starts on a new line. */
  function ElementNodes(tag: string, name: string, value: string): seq<Node> {
    [Node(tag, value), Node("/" + name, "\r\n")]
  }

  lemma ElementIsWritten(tag: string, name: string, value: string, t: string)
    requires Unmarked(name)
    requires t == "\r\n&lt;" + XmlEscape.Escape(tag) + "&gt;" + XmlEscape.Escape(value) + "&lt;/" + name + "&gt;"
    ensures Writes(t, ElementNodes(tag, name, value))
  {
    hide XmlEscape.Escape, Unmarked;
    Literals();
    UnmarkedIsItself(name);
    var p := "\r\n<" + tag + ">" + value + "</" + name + ">";
    EscapeOfThree("\r\n<", tag, ">");
    EscapeOfThree("\r\n<" + tag + ">", value, "</");
    EscapeOfThree("\r\n<" + tag + ">" + value + "</", name, ">");
    ElementText(tag, name, value);
    WritesIt(t, p, ElementNodes(tag, name, value));
  }

  lemma ElementText(tag: string, name: string, value: string)
    ensures "\r\n<" + tag + ">" + value + "</" + name + ">" + "\r\n" == "\r\n" + Text(ElementNodes(tag, name, value))
  {
    var ns := ElementNodes(tag, name, value);
    assert ns[1..] == [Node("/" + name, "\r\n")] && ns[1..][1..] == [];
    TextUnfolds(ns);
    TextUnfolds(ns[1..]);
    assert Text([]) == "";
    hide Text;
    assert Text(ns[1..]) == "</" + name + ">" + "\r\n";
  }

  // ----- a resource

  function ResPairs(r: Resource, shown: bv32, e: bool, time: string): seq<Pair> {
    [Pair("protocolInfo", Meta(r.protocolInfo, e))] + Pairs(Attributes, r, shown, e, time)
  }

  function ResNodes(r: Resource, shown: bv32, e: bool, time: string): seq<Node> {
    ElementNodes(Tag("res", ResPairs(r, shown, e, time)), "res", Meta(r.value.GetOr(""), e))
  }

  predicate CleanResource(r: Resource, e: bool) {
    e ==> Clean(r.protocolInfo) && Clean(r.value.GetOr("")) && Clean(r.protection.GetOr(""))
  }

  lemma ResTagIsWritten(r: Resource, shown: bv32, e: bool, time: string)
    requires Timely(r, time) && CleanResource(r, e)
    ensures XmlEscape.Escape(Tag("res", ResPairs(r, shown, e, time)))
      == "res protocolInfo=&quot;" + Escaped(r.protocolInfo, e) + "&quot;"
         + AttributesText(Attributes, r, shown, e, time)
  {
    hide XmlEscape.Escape, Tag, Meta, Escaped, Pairs, AttributesText, Timely;
    var ps, v := Pairs(Attributes, r, shown, e, time), Meta(r.protocolInfo, e);
    TagUnfolds("res", ResPairs(r, shown, e, time));
    assert ResPairs(r, shown, e, time)[1..] == ps;
    PairsAreWritten(Attributes, r, shown, e, time);
    MetaIsEscaped(r.protocolInfo, e);
    Literals();
    var open := "res protocolInfo=\"";
    assert "res" + " " + "protocolInfo" + "=" + "\"" == open;
    ResOpens();
    EscapeOfThree(open, v, "\"");
    XmlEscape.EscapeJoin(open + v + "\"", Tag("", ps));
  }

  lemma ResOpens()
    ensures XmlEscape.Escape("res protocolInfo=\"") == "res protocolInfo=&quot;"
  {
    hide XmlEscape.Escape;
    Literals();
    LettersAreThemselves("res protocolInfo");
    XmlEscape.EscapeJoin("res protocolInfo", "=\"");
    assert "res protocolInfo" + "=\"" == "res protocolInfo=\"";
  }

  /** A name of letters, blanks and punctuation that no escape touches. */
  predicate Lettered(s: string) {
    forall k :: 0 <= k < |s| ==> s[k] == ' ' || '-' <= s[k] <= ':' || 'A' <= s[k] <= 'z'
  }

  lemma LettersAreThemselves(s: string)
    requires Lettered(s)
    ensures Unmarked(s) && XmlEscape.Escape(s) == s && Clean(s)
  {
    UnmarkedIsItself(s);
    hide XmlEscape.Escape;
  }

  lemma ResIsWritten(r: Resource, shown: bv32, e: bool, time: string)
    requires Timely(r, time) && CleanResource(r, e)
    ensures Writes(ResText(r, shown, e, time), ResNodes(r, shown, e, time))
  {
    hide XmlEscape.Escape, Tag, Meta, Escaped, AttributesText, Timely, Writes, ResPairs;
    var tag, value := Tag("res", ResPairs(r, shown, e, time)), Meta(r.value.GetOr(""), e);
    ResTagIsWritten(r, shown, e, time);
    MetaIsEscaped(r.value.GetOr(""), e);
    var attributes := AttributesText(Attributes, r, shown, e, time);
    ResRegrouped(Escaped(r.protocolInfo, e), attributes, Escaped(r.value.GetOr(""), e));
    assert Unmarked("res");
    ElementIsWritten(tag, "res", value, ResText(r, shown, e, time));
  }

  lemma ResRegrouped(info: string, attributes: string, value: string)
    ensures ResStart() + info + "&quot;" + attributes + "&gt;" + value + ResEnd()
      == "\r\n&lt;" + ("res protocolInfo=&quot;" + info + "&quot;" + attributes) + "&gt;" + value
         + "&lt;/" + "res" + "&gt;"
  {
    assert ResStart() == "\r\n&lt;" + "res protocolInfo=&quot;" && ResEnd() == "&lt;/" + "res" + "&gt;";
    hide ResStart, ResEnd;
    var a, b := "\r\n&lt;", "res protocolInfo=&quot;";
    assert a + b + info + "&quot;" + attributes == a + (b + info + "&quot;" + attributes);
    var front := a + (b + info + "&quot;" + attributes) + "&gt;" + value;
    Sequences.Assoc(front, "&lt;/", "res" + "&gt;");
    Sequences.Assoc(front + "&lt;/", "res", "&gt;");
    assert "&lt;/" + "res" + "&gt;" == "&lt;/" + ("res" + "&gt;");
  }

  // ----- the start tag

  /** The attributes of a start tag in the order of the prints, which open each one with the quote that ends the
      one before it. */
  function Follows(ps: seq<Pair>): string {
    if ps == [] then "" else "\" " + ps[0].name + "=\"" + ps[0].value + Follows(ps[1..])
  }

  lemma {:induction false} TagIsOpened(name: string, p: Pair, ps: seq<Pair>)
    ensures Tag(name, [p] + ps) == name + " " + p.name + "=\"" + p.value + Follows(ps) + "\""
    decreases |ps|
  {
    TagUnfolds(name, [p] + ps);
    assert ([p] + ps)[1..] == ps;
    var head := name + " " + p.name + "=\"" + p.value;
    assert name + " " + p.name + "=" + "\"" + p.value == head;
    if ps == [] {
      assert Tag("", []) == "" && Follows([]) == "";
      hide Tag, Follows;
      assert head + "\"" + "" == head + "" + "\"";
    } else {
      TagIsOpened("", ps[0], ps[1..]);
      assert [ps[0]] + ps[1..] == ps;
      FollowsUnfolds(ps);
      hide Tag, Follows;
      var q := ps[0];
      NextAttribute(head, q.name, q.value, Follows(ps[1..]));
    }
  }

  lemma FollowsUnfolds(ps: seq<Pair>)
    requires ps != []
    ensures Follows(ps) == "\" " + ps[0].name + "=\"" + ps[0].value + Follows(ps[1..])
  {
  }

  lemma NextAttribute(head: string, name: string, value: string, rest: string)
    ensures head + "\"" + ("" + " " + name + "=\"" + value + rest + "\"")
      == head + ("\" " + name + "=\"" + value + rest) + "\""
  {
  }

  lemma {:induction false} FollowsJoin(a: seq<Pair>, b: seq<Pair>)
    ensures Follows(a + b) == Follows(a) + Follows(b)
  {
    if a == [] {
      assert a + b == b;
    } else {
      assert (a + b)[0] == a[0] && (a + b)[1..] == a[1..] + b;
      FollowsJoin(a[1..], b);
      Sequences.Assoc("\" " + a[0].name + "=\"" + a[0].value, Follows(a[1..]), Follows(b));
    }
  }

  lemma FollowIsWritten(p: Pair)
    requires Unmarked(p.name)
    ensures XmlEscape.Escape(Follows([p])) == "&quot; " + p.name + "=&quot;" + XmlEscape.Escape(p.value)
  {
    hide XmlEscape.Escape, Unmarked;
    Literals();
    UnmarkedIsItself(p.name);
    assert Follows([p]) == "\" " + p.name + "=\"" + p.value by {
      assert [p][1..] == [] && Follows([]) == "";
    }
    EscapeOfThree("\" ", p.name, "=\"");
    XmlEscape.EscapeJoin("\" " + p.name + "=\"", p.value);
    XmlEscape.EscapeJoin("\"", " ");
    assert "\"" + " " == "\" " && "&quot;" + " " == "&quot; ";
  }

  function ContainerPairs(o: MediaObject, filter: bv32): seq<Pair> {
    (if Has(filter, Filter.Searchable) then [Pair("searchable", Digit(o.searchable))] else [])
    + (if Has(filter, Filter.ChildCount) then [Pair("childCount", Decimal(o.childCount))] else [])
  }

  function RefPairs(refID: Option<string>, e: bool): seq<Pair> {
    if Empty(refID) then [] else [Pair("refID", Meta(refID.GetOr(""), e))]
  }

  function MorePairs(o: MediaObject, filter: bv32, e: bool): seq<Pair> {
    if IsContainer(o.mediaClass) then ContainerPairs(o, filter) else RefPairs(o.refID, e)
  }

  function StartPairs(o: MediaObject, filter: bv32, e: bool): seq<Pair> {
    [Pair("id", Meta(o.id.GetOr(""), e))]
    + ([Pair("parentID", Meta(o.parentID.GetOr(""), e))]
       + ([Pair("restricted", Digit(o.restricted))] + MorePairs(o, filter, e)))
  }

  function Kind(o: MediaObject): string {
    if IsContainer(o.mediaClass) then "container" else "item"
  }

  lemma OptionIsWritten(b: bool, p: Pair)
    requires Unmarked(p.name)
    ensures XmlEscape.Escape(Follows(if b then [p] else []))
      == if b then "&quot; " + p.name + "=&quot;" + XmlEscape.Escape(p.value) else ""
  {
    hide XmlEscape.Escape, Unmarked, Follows;
    FollowIsWritten(p);
    NothingFollows();
  }

  lemma ContainerIsWritten(o: MediaObject, filter: bv32)
    ensures XmlEscape.Escape(Follows(ContainerPairs(o, filter))) == ContainerText(o, filter)
  {
    hide XmlEscape.Escape, Decimal, Has, Unmarked, Follows, Digit;
    var searchable, childCount := Pair("searchable", Digit(o.searchable)), Pair("childCount", Decimal(o.childCount));
    var a, b := Has(filter, Filter.Searchable), Has(filter, Filter.ChildCount);
    StartNames();
    hide Lettered;
    LettersAreThemselves("searchable");
    LettersAreThemselves("childCount");
    DecimalIsUnmarked(o.childCount);
    UnmarkedIsItself(Decimal(o.childCount));
    DigitIsItself(o.searchable);
    OptionIsWritten(a, searchable);
    OptionIsWritten(b, childCount);
    FollowsJoin(if a then [searchable] else [], if b then [childCount] else []);
    XmlEscape.EscapeJoin(Follows(if a then [searchable] else []), Follows(if b then [childCount] else []));
    ContainerOpens();
  }

  lemma ContainerOpens()
    ensures "&quot; " + "searchable" + "=&quot;" == "&quot; searchable=&quot;"
    ensures "&quot; " + "childCount" + "=&quot;" == "&quot; childCount=&quot;"
  {
  }

  lemma NothingFollows()
    ensures Follows([]) == "" && XmlEscape.Escape("") == ""
  {
  }

  lemma DigitIsItself(b: bool)
    ensures XmlEscape.Escape(Digit(b)) == Digit(b) && Clean(Digit(b))
  {
    UnmarkedIsItself(Digit(b));
  }

  lemma RefIsWritten(refID: Option<string>, e: bool)
    ensures XmlEscape.Escape(Follows(RefPairs(refID, e))) == RefText(refID, e)
  {
    hide XmlEscape.Escape, Unmarked, Meta, Escaped;
    NothingFollows();
    StartNames();
    hide Lettered;
    LettersAreThemselves("refID");
    var p := Pair("refID", Meta(refID.GetOr(""), e));
    FollowIsWritten(p);
    MetaIsEscaped(refID.GetOr(""), e);
    hide Follows;
    assert "&quot; " + "refID" + "=&quot;" == "&quot; refID=&quot;";
  }

  lemma MoreIsWritten(o: MediaObject, filter: bv32, e: bool)
    ensures XmlEscape.Escape(Follows(MorePairs(o, filter, e)))
      == if IsContainer(o.mediaClass) then ContainerText(o, filter) else RefText(o.refID, e)
  {
    hide XmlEscape.Escape, Follows, IsContainer, ContainerPairs, RefPairs, ContainerText, RefText;
    ContainerIsWritten(o, filter);
    RefIsWritten(o.refID, e);
  }

  /** The start tag with its line end is the element's first node. */
  lemma StartIsWritten(o: MediaObject, filter: bv32, e: bool)
    ensures Writes(StartText(o, filter, e), [Node(Tag(Kind(o), StartPairs(o, filter, e)), "\r\n")])
  {
    hide XmlEscape.Escape, Tag, StartPairs, StartText, Writes;
    StartTagIsWritten(o, filter, e);
    var tag := Tag(Kind(o), StartPairs(o, filter, e));
    Literals();
    EscapeOfThree("\r\n<", tag, ">");
    assert Text([Node(tag, "\r\n")]) == "<" + tag + ">" + "\r\n" + "" by {
      TextUnfolds([Node(tag, "\r\n")]);
      assert [Node(tag, "\r\n")][1..] == [] && Text([]) == "";
    }
    hide Text;
    assert "\r\n<" + tag + ">" + "\r\n" == "\r\n" + ("<" + tag + ">" + "\r\n" + "");
    WritesIt(StartText(o, filter, e), "\r\n<" + tag + ">", [Node(tag, "\r\n")]);
  }

  /** A tag in the order of the prints. */
  lemma TagIsWritten(kind: string, id: Pair, p: Pair, r: Pair, more: seq<Pair>)
    requires Unmarked(p.name) && Unmarked(r.name)
    ensures XmlEscape.Escape(Tag(kind, [id] + ([p] + ([r] + more))))
      == XmlEscape.Escape(kind + " " + id.name + "=\"") + XmlEscape.Escape(id.value)
         + (("&quot; " + p.name + "=&quot;" + XmlEscape.Escape(p.value))
            + (("&quot; " + r.name + "=&quot;" + XmlEscape.Escape(r.value)) + XmlEscape.Escape(Follows(more))))
         + "&quot;"
  {
    hide XmlEscape.Escape, Tag, Follows, Unmarked;
    TagIsOpened(kind, id, [p] + ([r] + more));
    FollowsJoin([p], [r] + more);
    FollowsJoin([r], more);
    FollowIsWritten(p);
    FollowIsWritten(r);
    var open, rest := kind + " " + id.name + "=\"", Follows([p]) + (Follows([r]) + Follows(more));
    XmlEscape.EscapeJoin(open, id.value);
    XmlEscape.EscapeJoin(Follows([r]), Follows(more));
    XmlEscape.EscapeJoin(Follows([p]), Follows([r]) + Follows(more));
    EscapeOfThree(open + id.value, rest, "\"");
    Literals();
  }

  lemma StartTagIsWritten(o: MediaObject, filter: bv32, e: bool)
    ensures StartText(o, filter, e) == "\r\n&lt;" + XmlEscape.Escape(Tag(Kind(o), StartPairs(o, filter, e))) + "&gt;"
  {
    hide XmlEscape.Escape, Meta, Escaped, MorePairs, IsContainer, Tag, Follows, ContainerText, RefText, Unmarked, Digit;
    var id, parent := Pair("id", Meta(o.id.GetOr(""), e)), Pair("parentID", Meta(o.parentID.GetOr(""), e));
    var restricted, more := Pair("restricted", Digit(o.restricted)), MorePairs(o, filter, e);
    StartNames();
    hide Lettered;
    LettersAreThemselves("parentID");
    LettersAreThemselves("restricted");
    TagIsWritten(Kind(o), id, parent, restricted, more);
    MoreIsWritten(o, filter, e);
    DigitIsItself(o.restricted);
    MetaIsEscaped(o.id.GetOr(""), e);
    MetaIsEscaped(o.parentID.GetOr(""), e);
    KindOpens(o);
    StartUnfolds(o, filter, e);
    hide StartText;
    StartRegrouped(Kind(o), Escaped(o.id.GetOr(""), e), Escaped(o.parentID.GetOr(""), e), Digit(o.restricted),
                   if IsContainer(o.mediaClass) then ContainerText(o, filter) else RefText(o.refID, e));
  }

  lemma StartUnfolds(o: MediaObject, filter: bv32, e: bool)
    ensures StartText(o, filter, e) ==
      ("\r\n&lt;" + Kind(o) + " id=&quot;") + Escaped(o.id.GetOr(""), e)
      + "&quot; parentID=&quot;" + Escaped(o.parentID.GetOr(""), e) + "&quot; restricted=&quot;" + Digit(o.restricted)
      + (if IsContainer(o.mediaClass) then ContainerText(o, filter) else RefText(o.refID, e)) + "&quot;&gt;"
  {
    hide Escaped, IsContainer, ContainerText, RefText, Digit;
    assert "\r\n&lt;" + "container" + " id=&quot;" == "\r\n&lt;container id=&quot;";
    assert "\r\n&lt;" + "item" + " id=&quot;" == "\r\n&lt;item id=&quot;";
  }

  lemma StartNames()
    ensures Lettered("parentID") && Lettered("restricted") && Lettered("searchable") && Lettered("childCount")
    ensures Lettered("refID") && Lettered(" id")
  {
  }

  lemma KindOpens(o: MediaObject)
    ensures XmlEscape.Escape(Kind(o) + " " + "id" + "=\"") == Kind(o) + " id=&quot;"
  {
    hide XmlEscape.Escape, IsContainer;
    StartNames();
    TagNames();
    hide Lettered;
    LettersAreThemselves(Kind(o));
    LettersAreThemselves(" id");
    Literals();
    EscapeOfThree(Kind(o), " id", "=\"");
    assert Kind(o) + " id" + "=\"" == Kind(o) + " " + "id" + "=\"";
    assert Kind(o) + " id" + "=&quot;" == Kind(o) + " id=&quot;";
  }

  lemma StartRegrouped(kind: string, id: string, parent: string, restricted: string, more: string)
    ensures ("\r\n&lt;" + kind + " id=&quot;") + id + "&quot; parentID=&quot;" + parent + "&quot; restricted=&quot;"
      + restricted + more + "&quot;&gt;"
      == "\r\n&lt;" + (kind + " id=&quot;" + id
        + (("&quot; " + "parentID" + "=&quot;" + parent) + (("&quot; " + "restricted" + "=&quot;" + restricted) + more))
        + "&quot;") + "&gt;"
  {
    assert "&quot; " + "parentID" + "=&quot;" == "&quot; parentID=&quot;";
    assert "&quot; " + "restricted" + "=&quot;" == "&quot; restricted=&quot;";
    assert "&quot;" + "&gt;" == "&quot;&gt;";
    var p, r := "&quot; parentID=&quot;" + parent, "&quot; restricted=&quot;" + restricted;
    var front, a := "\r\n&lt;" + kind + " id=&quot;" + id, kind + " id=&quot;" + id;
    assert front == "\r\n&lt;" + a;
    Sequences.Assoc(front, "&quot; parentID=&quot;", parent);
    Sequences.Assoc(front + p, "&quot; restricted=&quot;", restricted);
    Regrouped("\r\n&lt;", a, p, r, more, "&quot;", "&gt;");
  }

  lemma Regrouped(x: string, a: string, p: string, r: string, m: string, q: string, g: string)
    ensures x + a + p + r + m + (q + g) == x + (a + (p + (r + m)) + q) + g
  {
    Sequences.Assoc(x + a + p, r, m);
    Sequences.Assoc(x + a, p, r + m);
    Sequences.Assoc(x, a, p + (r + m));
    Sequences.Assoc(x + a + p + r + m, q, g);
    Sequences.Assoc(x, a + (p + (r + m)), q);
  }

  // ----- the object

  predicate CleanObject(o: MediaObject, e: bool) {
    && (e ==> Clean(o.id.GetOr("")) && Clean(o.parentID.GetOr("")) && Clean(o.refID.GetOr("")))
    && (e ==> Clean(o.title.GetOr("")))
    && (e ==> Clean(o.creator.GetOr("")) && Clean(o.genre.GetOr("")) && Clean(o.album.GetOr("")))
    && forall k :: 0 <= k < |o.res| ==> CleanResource(o.res[k], e)
  }

  /** No duration is 0, or the time buffer holds no markup to begin with. */
  predicate AllTimely(rs: seq<Resource>, time: string) {
    Unmarked(time) || forall k :: 0 <= k < |rs| ==> rs[k].duration != 0
  }

  lemma {:induction false} TimeStaysUnmarked(rs: seq<Resource>, shown: bv32, time: string)
    requires Unmarked(time)
    ensures Unmarked(TimeAfter(rs, shown, time))
  {
    hide Unmarked, TimeString, Has;
    if rs != [] {
      TimeStaysUnmarked(rs[..|rs| - 1], shown, time);
      TimeIsUnmarked(rs[|rs| - 1].duration, TimeAfter(rs[..|rs| - 1], shown, time));
    }
  }

  function ResourcesNodes(rs: seq<Resource>, shown: bv32, e: bool, time: string): seq<Node> {
    if rs == [] then []
    else
      var init := rs[..|rs| - 1];
      ResourcesNodes(init, shown, e, time) + ResNodes(rs[|rs| - 1], shown, e, TimeAfter(init, shown, time))
  }

  lemma LastIsTimely(rs: seq<Resource>, shown: bv32, time: string)
    requires rs != [] && AllTimely(rs, time)
    ensures AllTimely(rs[..|rs| - 1], time) && Timely(rs[|rs| - 1], TimeAfter(rs[..|rs| - 1], shown, time))
  {
    hide Unmarked, TimeAfter;
    if Unmarked(time) {
      TimeStaysUnmarked(rs[..|rs| - 1], shown, time);
    }
  }

  lemma {:induction false} ResourcesAreWritten(rs: seq<Resource>, shown: bv32, e: bool, time: string)
    requires AllTimely(rs, time) && forall k :: 0 <= k < |rs| ==> CleanResource(rs[k], e)
    ensures Writes(ResourcesText(rs, shown, e, time), ResourcesNodes(rs, shown, e, time))
  {
    hide Writes, CleanResource, AllTimely, Timely, ResText, ResNodes, TimeAfter;
    if rs == [] {
      WritesNothing();
    } else {
      var init, last := rs[..|rs| - 1], rs[|rs| - 1];
      LastIsTimely(rs, shown, time);
      ResourcesAreWritten(init, shown, e, time);
      ResIsWritten(last, shown, e, TimeAfter(init, shown, time));
      WritesJoin(ResourcesText(init, shown, e, time), ResourcesNodes(init, shown, e, time),
                 ResText(last, shown, e, TimeAfter(init, shown, time)),
                 ResNodes(last, shown, e, TimeAfter(init, shown, time)));
    }
  }

  function FieldNodes(name: string, s: Option<string>, shown: bv32, flag: bv32, e: bool): seq<Node> {
    if s.Some? && Has(shown, flag) then ElementNodes(name, name, Meta(s.value, e)) else []
  }

  lemma PlainElementIsWritten(name: string, value: string, t: string)
    requires Unmarked(name) && t == XmlEscape.Escape(value)
    ensures Writes(Element(name, t), ElementNodes(name, name, value))
  {
    hide XmlEscape.Escape, Writes, Unmarked, ElementNodes;
    UnmarkedIsItself(name);
    var front := "\r\n&lt;" + name + "&gt;" + t;
    Sequences.Assoc(front, "&lt;/" + name, "&gt;");
    Sequences.Assoc(front, "&lt;/", name);
    ElementIsWritten(name, name, value, Element(name, t));
  }

  lemma FieldIsWritten(name: string, s: Option<string>, shown: bv32, flag: bv32, e: bool)
    requires Unmarked(name)
    ensures Writes(FieldText(name, s, shown, flag, e), FieldNodes(name, s, shown, flag, e))
  {
    hide XmlEscape.Escape, Writes, Unmarked, ElementNodes, Element, Has, Meta, Escaped;
    WritesNothing();
    if s.Some? {
      MetaIsEscaped(s.value, e);
      PlainElementIsWritten(name, Meta(s.value, e), Escaped(s.value, e));
    }
  }

  function HeadNodes(o: MediaObject, filter: bv32, e: bool): seq<Node>
    requires ClassOf(o.mediaClass).Named()
  {
    [Node(Tag(Kind(o), StartPairs(o, filter, e)), "\r\n")]
    + ElementNodes("dc:title", "dc:title", Meta(o.title.GetOr(""), e))
    + ElementNodes("upnp:class", "upnp:class", ClassText(ClassOf(o.mediaClass)))
  }

  function TailNodes(o: MediaObject, shown: bv32, e: bool): seq<Node> {
    FieldNodes("dc:creator", o.creator, shown, Filter.Creator, e)
    + FieldNodes("upnp:genre", o.genre, shown, Filter.Genre, e)
    + FieldNodes("upnp:album", o.album, shown, Filter.Album, e)
  }

  function MiddleNodes(o: MediaObject, shown: bv32, e: bool, time: string): seq<Node> {
    if Has(shown, Filter.Res) then ResourcesNodes(o.res, shown, e, time) else []
  }

  function ObjectNodes(o: MediaObject, filter: bv32, shown: bv32, e: bool, time: string): seq<Node>
    requires ClassOf(o.mediaClass).Named()
  {
    HeadNodes(o, filter, e) + MiddleNodes(o, shown, e, time) + TailNodes(o, shown, e) + [Node("/" + Kind(o), "")]
  }

  lemma ObjectNames()
    ensures Lettered("object.item") && Lettered("object.container") && Lettered("")
  {
  }

  lemma ItemNames()
    ensures Lettered("imageItem") && Lettered("audioItem") && Lettered("videoItem") && Lettered("playlistItem")
  {
  }

  lemma ContainerNames()
    ensures Lettered("textItem") && Lettered("person") && Lettered("playlistContainer") && Lettered("album")
  {
  }

  lemma StorageNames()
    ensures Lettered("genre") && Lettered("storageSystem") && Lettered("storageVolume") && Lettered("storageFolder")
  {
  }

  lemma EpgNames()
    ensures Lettered("epgContainer") && Lettered("epgItem")
  {
  }

  lemma MediaNames()
    ensures Lettered("photo") && Lettered("musicTrack") && Lettered("audioBroadcast") && Lettered("audioBook")
  {
  }

  lemma VideoNames()
    ensures Lettered("movie") && Lettered("videoBroadcast") && Lettered("musicVideClip") && Lettered("musicArtist")
  {
  }

  lemma MusicNames()
    ensures Lettered("musicAlbum") && Lettered("photoAlbum") && Lettered("musicGenre") && Lettered("movieGenre")
  {
  }

  lemma ProgramNames()
    ensures Lettered("videoProgram") && Lettered("audioProgram")
  {
  }

  lemma TablesAreLettered(c: Class)
    requires c.Named()
    ensures Lettered(ObjectTypes[c.kind]) && Lettered(MajorTypes[c.major]) && Lettered(Minor1Types[c.minor1])
  {
    hide Lettered;
    ObjectNames();
    ItemNames();
    ContainerNames();
    StorageNames();
    EpgNames();
    MediaNames();
    VideoNames();
    MusicNames();
    ProgramNames();
  }

  lemma ClassIsUnmarked(c: Class)
    requires c.Named()
    ensures Unmarked(ClassText(c))
  {
    TablesAreLettered(c);
    hide ObjectTypes, MajorTypes, Minor1Types, XmlEscape.Escape;
    LettersAreThemselves(ClassText(c));
  }

  lemma NamesAreUnmarked()
    ensures Unmarked("dc:title") && Unmarked("upnp:class") && Unmarked("dc:creator")
    ensures Unmarked("upnp:genre") && Unmarked("upnp:album") && Unmarked("item") && Unmarked("container")
  {
    hide Lettered, Unmarked, XmlEscape.Escape, Clean;
    TagNames();
    FieldNames();
    LettersAreThemselves("dc:title");
    LettersAreThemselves("upnp:class");
    LettersAreThemselves("dc:creator");
    LettersAreThemselves("upnp:genre");
    LettersAreThemselves("upnp:album");
    LettersAreThemselves("item");
    LettersAreThemselves("container");
  }

  lemma TagNames()
    ensures Lettered("dc:title") && Lettered("upnp:class") && Lettered("item") && Lettered("container")
  {
  }

  lemma FieldNames()
    ensures Lettered("dc:creator") && Lettered("upnp:genre") && Lettered("upnp:album")
  {
  }

  lemma HeadIsWritten(o: MediaObject, filter: bv32, e: bool)
    requires ClassOf(o.mediaClass).Named()
    ensures Writes(HeadText(o, filter, e), HeadNodes(o, filter, e))
  {
    hide XmlEscape.Escape, Writes, Unmarked, ElementNodes, Element, Meta, Escaped, StartText, Tag, StartPairs;
    hide ClassText;
    hide Class.Named, ClassOf;
    var name := ClassText(ClassOf(o.mediaClass));
    NamesAreUnmarked();
    ClassIsUnmarked(ClassOf(o.mediaClass));
    UnmarkedIsItself(name);
    MetaIsEscaped(o.title.GetOr(""), e);
    StartIsWritten(o, filter, e);
    PlainElementIsWritten("dc:title", Meta(o.title.GetOr(""), e), Escaped(o.title.GetOr(""), e));
    PlainElementIsWritten("upnp:class", name, name);
    var start, title := [Node(Tag(Kind(o), StartPairs(o, filter, e)), "\r\n")], Meta(o.title.GetOr(""), e);
    WritesJoin(StartText(o, filter, e), start,
               Element("dc:title", Escaped(o.title.GetOr(""), e)), ElementNodes("dc:title", "dc:title", title));
    WritesJoin(StartText(o, filter, e) + Element("dc:title", Escaped(o.title.GetOr(""), e)),
               start + ElementNodes("dc:title", "dc:title", title),
               Element("upnp:class", name), ElementNodes("upnp:class", "upnp:class", name));
  }

  function Fields(o: MediaObject, shown: bv32, e: bool): string {
    FieldText("dc:creator", o.creator, shown, Filter.Creator, e)
    + FieldText("upnp:genre", o.genre, shown, Filter.Genre, e)
    + FieldText("upnp:album", o.album, shown, Filter.Album, e)
  }

  lemma FieldsAreWritten(o: MediaObject, shown: bv32, e: bool)
    ensures Writes(Fields(o, shown, e), TailNodes(o, shown, e))
  {
    hide Writes, Unmarked, FieldText, FieldNodes;
    NamesAreUnmarked();
    FieldIsWritten("dc:creator", o.creator, shown, Filter.Creator, e);
    FieldIsWritten("upnp:genre", o.genre, shown, Filter.Genre, e);
    FieldIsWritten("upnp:album", o.album, shown, Filter.Album, e);
    var a := FieldText("dc:creator", o.creator, shown, Filter.Creator, e);
    var b := FieldText("upnp:genre", o.genre, shown, Filter.Genre, e);
    var ns := FieldNodes("dc:creator", o.creator, shown, Filter.Creator, e);
    var ms := FieldNodes("upnp:genre", o.genre, shown, Filter.Genre, e);
    WritesJoin(a, ns, b, ms);
    WritesJoin(a + b, ns + ms, FieldText("upnp:album", o.album, shown, Filter.Album, e),
               FieldNodes("upnp:album", o.album, shown, Filter.Album, e));
  }

  /** The whole text is the escape of its nodes. */
  lemma ObjectIsWritten(o: MediaObject, filter: bv32, shown: bv32, e: bool, time: string)
    requires ClassOf(o.mediaClass).Named() && CleanObject(o, e) && AllTimely(o.res, time)
    ensures ObjectText(o, filter, shown, e, time)
      == XmlEscape.Escape("\r\n" + Text(ObjectNodes(o, filter, shown, e, time)))
  {
    hide Writes, HeadText, HeadNodes, ResourcesText, ResourcesNodes, Fields, TailNodes, CleanObject, CleanResource;
    hide AllTimely;
    hide Class.Named, ClassOf, Has, Text, Kind, XmlEscape.Escape, TailText, EndText;
    HeadIsWritten(o, filter, e);
    WritesNothing();
    if Has(shown, Filter.Res) {
      assert forall k :: 0 <= k < |o.res| ==> CleanResource(o.res[k], e) by { ResourcesAreClean(o, e); }
      ResourcesAreWritten(o.res, shown, e, time);
    }
    FieldsAreWritten(o, shown, e);
    var a, c := HeadText(o, filter, e), Fields(o, shown, e);
    var b := if Has(shown, Filter.Res) then ResourcesText(o.res, shown, e, time) else "";
    var ns, ms, ks := HeadNodes(o, filter, e), MiddleNodes(o, shown, e, time), TailNodes(o, shown, e);
    WritesJoin(a, ns, b, ms);
    WritesJoin(a + b, ns + ms, c, ks);
    TailUnfolds(o, shown, e);
    Sequences.Assoc(a + b, c, EndText(IsContainer(o.mediaClass)));
    EndIsWritten(a + b + c, ns + ms + ks, o);
  }

  lemma ResourcesAreClean(o: MediaObject, e: bool)
    requires CleanObject(o, e)
    ensures forall k :: 0 <= k < |o.res| ==> CleanResource(o.res[k], e)
  {
  }

  lemma TailUnfolds(o: MediaObject, shown: bv32, e: bool)
    ensures TailText(o, shown, e) == Fields(o, shown, e) + EndText(IsContainer(o.mediaClass))
  {
    hide FieldText, EndText;
  }

  lemma EndIsWritten(t: string, ns: seq<Node>, o: MediaObject)
    requires Writes(t, ns)
    ensures t + EndText(IsContainer(o.mediaClass)) == XmlEscape.Escape("\r\n" + Text(ns + [Node("/" + Kind(o), "")]))
  {
    hide XmlEscape.Escape, Text, Kind, EndText, IsContainer;
    var p :| t == XmlEscape.Escape(p) && p + "\r\n" == "\r\n" + Text(ns);
    var end, tag := Node("/" + Kind(o), ""), "</" + Kind(o) + ">";
    TextJoin(ns, [end]);
    EndNode(o);
    EndTag(o);
    XmlEscape.EscapeJoin(p, "\r\n" + tag);
    Sequences.Assoc(p, "\r\n", tag);
    Sequences.Assoc("\r\n", Text(ns), tag);
  }

  lemma EndNode(o: MediaObject)
    ensures Text([Node("/" + Kind(o), "")]) == "</" + Kind(o) + ">"
  {
    var end := Node("/" + Kind(o), "");
    TextUnfolds([end]);
    NoText();
    hide Text, Kind;
    assert [end][1..] == [];
    assert "<" + ("/" + Kind(o)) + ">" + "" + "" == "</" + Kind(o) + ">";
  }

  lemma EndTag(o: MediaObject)
    ensures XmlEscape.Escape("\r\n" + ("</" + Kind(o) + ">")) == EndText(IsContainer(o.mediaClass))
  {
    NamesAreUnmarked();
    EndEscaped(o);
    hide XmlEscape.Escape, EndText, IsContainer, Unmarked;
    UnmarkedIsItself(Kind(o));
    Literals();
    XmlEscape.EscapeJoin("\r\n", "</" + Kind(o) + ">");
    EscapeOfThree("</", Kind(o), ">");
    Sequences.Assoc("\r\n", "&lt;/" + Kind(o), "&gt;");
    Sequences.Assoc("\r\n", "&lt;/", Kind(o));
  }

  lemma NoText()
    ensures Text([]) == ""
  {
  }

  lemma EndEscaped(o: MediaObject)
    ensures EndText(IsContainer(o.mediaClass)) == "\r\n" + "&lt;/" + Kind(o) + "&gt;"
    ensures XmlEscape.Escape("\r\n") == "\r\n"
  {
    hide IsContainer;
  }

  // ----- the nodes are read back

  predicate AllClean(ps: seq<Pair>) {
    forall k :: 0 <= k < |ps| ==> ' ' !in ps[k].name && Clean(ps[k].name) && Clean(ps[k].value)
  }

  lemma {:induction false} TagIsClean(name: string, ps: seq<Pair>)
    requires Clean(name) && AllClean(ps)
    ensures '<' !in Tag(name, ps) && '>' !in Tag(name, ps) && Fine(ps)
    decreases |ps|
  {
    if ps != [] {
      TagIsClean("", ps[1..]);
      TagUnfolds(name, ps);
      hide Tag;
    }
  }

  lemma CleanJoin(a: seq<Pair>, b: seq<Pair>)
    requires AllClean(a) && AllClean(b)
    ensures AllClean(a + b)
  {
  }

  lemma OneIsClean(name: string, value: string)
    requires Lettered(name) && ' ' !in name && Clean(value)
    ensures AllClean([Pair(name, value)])
  {
    LettersAreThemselves(name);
  }

  lemma ResPairsAreClean(r: Resource, shown: bv32, e: bool, time: string)
    requires Timely(r, time) && CleanResource(r, e)
    ensures AllClean(ResPairs(r, shown, e, time))
  {
    var ps := Pairs(Attributes, r, shown, e, time);
    PairsAreFine(Attributes, r, shown, e, time);
    MetaIsClean(r.protocolInfo, e);
    hide Pairs, Clean, Meta;
    assert AllClean(ps);
    ProtocolInfo();
    OneIsClean("protocolInfo", Meta(r.protocolInfo, e));
    CleanJoin([Pair("protocolInfo", Meta(r.protocolInfo, e))], ps);
  }

  lemma ProtocolInfo()
    ensures Lettered("protocolInfo") && ' ' !in "protocolInfo"
  {
  }

  lemma StartNamesAreWords()
    ensures ' ' !in "id" && ' ' !in "parentID" && ' ' !in "restricted" && ' ' !in "searchable" && ' ' !in "childCount"
    ensures ' ' !in "refID" && Lettered("id")
  {
  }

  lemma MorePairsAreClean(o: MediaObject, filter: bv32, e: bool)
    requires e ==> Clean(o.refID.GetOr(""))
    ensures AllClean(MorePairs(o, filter, e))
  {
    StartNames();
    StartNamesAreWords();
    hide Lettered, Clean, Meta, Unmarked, Decimal, Digit;
    DigitIsItself(o.searchable);
    DecimalIsUnmarked(o.childCount);
    UnmarkedIsItself(Decimal(o.childCount));
    MetaIsClean(o.refID.GetOr(""), e);
    OneIsClean("searchable", Digit(o.searchable));
    OneIsClean("childCount", Decimal(o.childCount));
    OneIsClean("refID", Meta(o.refID.GetOr(""), e));
    hide IsContainer, Has, AllClean;
    NoneIsClean();
    CleanJoin(if Has(filter, Filter.Searchable) then [Pair("searchable", Digit(o.searchable))] else [],
              if Has(filter, Filter.ChildCount) then [Pair("childCount", Decimal(o.childCount))] else []);
  }

  lemma NoneIsClean()
    ensures AllClean([])
  {
  }

  lemma StartPairsAreClean(o: MediaObject, filter: bv32, e: bool)
    requires CleanObject(o, e)
    ensures AllClean(StartPairs(o, filter, e))
  {
    MetaIsClean(o.id.GetOr(""), e);
    MetaIsClean(o.parentID.GetOr(""), e);
    MorePairsAreClean(o, filter, e);
    StartNames();
    StartNamesAreWords();
    DigitIsItself(o.restricted);
    hide Lettered, Clean, Meta, MorePairs, AllClean, Digit;
    OneIsClean("id", Meta(o.id.GetOr(""), e));
    OneIsClean("parentID", Meta(o.parentID.GetOr(""), e));
    OneIsClean("restricted", Digit(o.restricted));
    var id, parent := [Pair("id", Meta(o.id.GetOr(""), e))], [Pair("parentID", Meta(o.parentID.GetOr(""), e))];
    var restricted, more := [Pair("restricted", Digit(o.restricted))], MorePairs(o, filter, e);
    CleanJoin(restricted, more);
    CleanJoin(parent, restricted + more);
    CleanJoin(id, parent + (restricted + more));
  }

  predicate AllReadable(ns: seq<Node>) {
    forall k :: 0 <= k < |ns| ==> Readable(ns[k])
  }

  lemma ElementIsReadable(tag: string, name: string, value: string)
    requires '<' !in tag && '>' !in tag && Clean(name) && Clean(value)
    ensures AllReadable(ElementNodes(tag, name, value))
  {
    assert '<' !in "\r\n";
  }

  lemma ReadableJoin(a: seq<Node>, b: seq<Node>)
    requires AllReadable(a) && AllReadable(b)
    ensures AllReadable(a + b)
  {
  }

  lemma NoneIsReadable()
    ensures AllReadable([])
  {
  }

  lemma {:induction false} ResourcesAreReadable(rs: seq<Resource>, shown: bv32, e: bool, time: string)
    requires AllTimely(rs, time) && forall k :: 0 <= k < |rs| ==> CleanResource(rs[k], e)
    ensures AllReadable(ResourcesNodes(rs, shown, e, time))
  {
    hide AllTimely, Timely, TimeAfter, AllReadable, CleanResource, ResNodes;
    if rs == [] {
      NoneIsReadable();
    } else {
      var init, last := rs[..|rs| - 1], rs[|rs| - 1];
      LastIsTimely(rs, shown, time);
      ResourcesAreReadable(init, shown, e, time);
      ResIsReadable(last, shown, e, TimeAfter(init, shown, time));
      ReadableJoin(ResourcesNodes(init, shown, e, time), ResNodes(last, shown, e, TimeAfter(init, shown, time)));
    }
  }

  lemma ResIsReadable(r: Resource, shown: bv32, e: bool, time: string)
    requires Timely(r, time) && CleanResource(r, e)
    ensures AllReadable(ResNodes(r, shown, e, time)) && Fine(ResPairs(r, shown, e, time))
  {
    MetaIsClean(r.value.GetOr(""), e);
    hide Meta, Timely, AllClean, ResPairs, Tag, AllReadable, Fine;
    ResPairsAreClean(r, shown, e, time);
    assert Clean("res");
    TagIsClean("res", ResPairs(r, shown, e, time));
    ElementIsReadable(Tag("res", ResPairs(r, shown, e, time)), "res", Meta(r.value.GetOr(""), e));
  }

  lemma FieldIsReadable(name: string, s: Option<string>, shown: bv32, flag: bv32, e: bool)
    requires Clean(name) && (e ==> Clean(s.GetOr("")))
    ensures AllReadable(FieldNodes(name, s, shown, flag, e))
  {
    hide Meta, Has, AllReadable;
    NoneIsReadable();
    if s.Some? {
      MetaIsClean(s.value, e);
      ElementIsReadable(name, name, Meta(s.value, e));
    }
  }

  lemma NamesAreClean()
    ensures Clean("dc:title") && Clean("upnp:class") && Clean("dc:creator")
    ensures Clean("upnp:genre") && Clean("upnp:album") && Clean("item") && Clean("container")
  {
    NamesAreUnmarked();
    hide Unmarked, XmlEscape.Escape;
    UnmarkedIsItself("dc:title");
    UnmarkedIsItself("upnp:class");
    UnmarkedIsItself("dc:creator");
    UnmarkedIsItself("upnp:genre");
    UnmarkedIsItself("upnp:album");
    UnmarkedIsItself("item");
    UnmarkedIsItself("container");
  }

  lemma HeadIsReadable(o: MediaObject, filter: bv32, e: bool)
    requires ClassOf(o.mediaClass).Named() && CleanObject(o, e)
    ensures AllReadable(HeadNodes(o, filter, e)) && Fine(StartPairs(o, filter, e))
  {
    MetaIsClean(o.title.GetOr(""), e);
    hide Class.Named, ClassOf, Tag, StartPairs, Meta, ClassText, AllClean, Fine, CleanObject;
    var name, tag := ClassText(ClassOf(o.mediaClass)), Tag(Kind(o), StartPairs(o, filter, e));
    StartPairsAreClean(o, filter, e);
    NamesAreClean();
    TagIsClean(Kind(o), StartPairs(o, filter, e));
    assert AllReadable([Node(tag, "\r\n")]) by {
      assert '<' !in "\r\n";
    }
    ClassIsUnmarked(ClassOf(o.mediaClass));
    UnmarkedIsItself(name);
    hide AllReadable, Kind, ElementNodes;
    ElementIsReadable("dc:title", "dc:title", Meta(o.title.GetOr(""), e));
    ElementIsReadable("upnp:class", "upnp:class", name);
    ReadableJoin([Node(tag, "\r\n")], ElementNodes("dc:title", "dc:title", Meta(o.title.GetOr(""), e)));
    ReadableJoin([Node(tag, "\r\n")] + ElementNodes("dc:title", "dc:title", Meta(o.title.GetOr(""), e)),
                 ElementNodes("upnp:class", "upnp:class", name));
  }

  lemma TailIsReadable(o: MediaObject, shown: bv32, e: bool)
    requires CleanObject(o, e)
    ensures AllReadable(TailNodes(o, shown, e) + [Node("/" + Kind(o), "")])
  {
    NamesAreClean();
    hide AllReadable, FieldNodes;
    FieldIsReadable("dc:creator", o.creator, shown, Filter.Creator, e);
    FieldIsReadable("upnp:genre", o.genre, shown, Filter.Genre, e);
    FieldIsReadable("upnp:album", o.album, shown, Filter.Album, e);
    var a := FieldNodes("dc:creator", o.creator, shown, Filter.Creator, e);
    var b := FieldNodes("upnp:genre", o.genre, shown, Filter.Genre, e);
    var c := FieldNodes("upnp:album", o.album, shown, Filter.Album, e);
    ReadableJoin(a, b);
    ReadableJoin(a + b, c);
    EndIsReadable(o);
    ReadableJoin(a + b + c, [Node("/" + Kind(o), "")]);
  }

  lemma EndIsReadable(o: MediaObject)
    ensures AllReadable([Node("/" + Kind(o), "")])
  {
    NamesAreClean();
    hide IsContainer;
  }

  /** Unescaped once and taken apart, the text has exactly these nodes. */
  lemma ObjectNodesAreRead(o: MediaObject, filter: bv32, shown: bv32, e: bool, time: string)
    requires ClassOf(o.mediaClass).Named() && CleanObject(o, e) && AllTimely(o.res, time)
    ensures Nodes(XmlEscape.Unescape(ObjectText(o, filter, shown, e, time))) == ObjectNodes(o, filter, shown, e, time)
  {
    hide Class.Named, ClassOf, HeadNodes, TailNodes, ResourcesNodes, CleanObject, AllTimely, CleanResource, Has, Kind;
    hide AllReadable, Text, Nodes, XmlEscape.Escape, XmlEscape.Unescape, Readable, ObjectText;
    ObjectIsWritten(o, filter, shown, e, time);
    HeadIsReadable(o, filter, e);
    NoneIsReadable();
    ResourcesAreClean(o, e);
    ResourcesAreReadable(o.res, shown, e, time);
    TailIsReadable(o, shown, e);
    var ns := ObjectNodes(o, filter, shown, e, time);
    ReadableJoin(HeadNodes(o, filter, e), MiddleNodes(o, shown, e, time));
    var end := [Node("/" + Kind(o), "")];
    ReadableJoin(HeadNodes(o, filter, e) + MiddleNodes(o, shown, e, time), TailNodes(o, shown, e) + end);
    Sequences.Assoc(HeadNodes(o, filter, e) + MiddleNodes(o, shown, e, time), TailNodes(o, shown, e), end);
    XmlEscape.UnescapeOfEscape("\r\n" + Text(ns));
    ReadableNodes(ns);
    NodesOfText("\r\n", ns);
  }

  lemma ReadableNodes(ns: seq<Node>)
    requires AllReadable(ns)
    ensures '<' !in "\r\n" && forall n :: n in ns ==> Readable(n)
  {
    hide Readable;
  }

  // ----- the frame around the object

  const DIDL := "urn:schemas-upnp-org:metadata-1-0/DIDL-Lite/"
  const DC := "http://purl.org/dc/elements/1.1/"
  const UPNP := "urn:schemas-upnp-org:metadata-1-0/upnp/"

  function NamespacePairs(): seq<Pair> {
    [Pair("xmlns", DIDL), Pair("xmlns:dc", DC), Pair("xmlns:upnp", UPNP)]
  }

  lemma DidlIsLettered()
    ensures Lettered(DIDL)
  {
  }

  lemma DcIsLettered()
    ensures Lettered(DC)
  {
  }

  lemma UpnpIsLettered()
    ensures Lettered(UPNP)
  {
  }

  lemma FrameNames()
    ensures Lettered("xmlns") && Lettered("xmlns:dc") && Lettered("xmlns:upnp") && Lettered("DIDL-Lite")
    ensures ' ' !in "xmlns" && ' ' !in "xmlns:dc" && ' ' !in "xmlns:upnp" && '"' !in "DIDL-Lite"
  {
  }

  lemma NamespacesAreWritten()
    ensures XmlEscape.Escape(Tag("", NamespacePairs())) ==
      " xmlns=&quot;" + DIDL + "&quot;"
      + (" xmlns:dc=&quot;" + DC + "&quot;" + (" xmlns:upnp=&quot;" + UPNP + "&quot;"))
  {
    hide XmlEscape.Escape, Tag, Lettered, DIDL, DC, UPNP, Unmarked;
    DidlIsLettered();
    DcIsLettered();
    UpnpIsLettered();
    FrameNames();
    LettersAreThemselves(DIDL);
    LettersAreThemselves(DC);
    LettersAreThemselves(UPNP);
    LettersAreThemselves("xmlns");
    LettersAreThemselves("xmlns:dc");
    LettersAreThemselves("xmlns:upnp");
    var ps := NamespacePairs();
    TagUnfolds("", ps);
    TagUnfolds("", ps[1..]);
    TagUnfolds("", ps[2..]);
    NoPairs();
    assert ps[1..][1..] == ps[2..] && ps[2..][1..] == [];
    EscapeOfPair("xmlns", DIDL, Tag("", ps[1..]));
    EscapeOfPair("xmlns:dc", DC, Tag("", ps[2..]));
    EscapeOfPair("xmlns:upnp", UPNP, Tag("", []));
    NamespaceTexts();
  }

  lemma NamespaceTexts()
    ensures " " + "xmlns" + "=&quot;" == " xmlns=&quot;" && " " + "xmlns:dc" + "=&quot;" == " xmlns:dc=&quot;"
    ensures " " + "xmlns:upnp" + "=&quot;" == " xmlns:upnp=&quot;"
  {
  }

  lemma HeaderIsWritten()
    ensures Header() == XmlEscape.Escape("<" + Tag("DIDL-Lite", NamespacePairs()) + ">")
  {
    hide XmlEscape.Escape, Tag, Lettered, DIDL, DC, UPNP;
    FrameNames();
    LettersAreThemselves("DIDL-Lite");
    Literals();
    NamespacesAreWritten();
    TagNamed("DIDL-Lite", NamespacePairs());
    EscapeOfThree("<", "DIDL-Lite" + Tag("", NamespacePairs()), ">");
    XmlEscape.EscapeJoin("DIDL-Lite", Tag("", NamespacePairs()));
    HeaderText();
  }

  lemma TagNamed(name: string, ps: seq<Pair>)
    requires ps != []
    ensures Tag(name, ps) == name + Tag("", ps)
  {
    TagUnfolds(name, ps);
    TagUnfolds("", ps);
    hide Tag;
    var p, rest := ps[0], Tag("", ps[1..]);
    Sequences.Assoc(name, " ", p.name);
    Sequences.Assoc(name, " " + p.name, "=");
    Sequences.Assoc(name, " " + p.name + "=", "\"");
    Sequences.Assoc(name, " " + p.name + "=" + "\"", p.value);
    Sequences.Assoc(name, " " + p.name + "=" + "\"" + p.value, "\"");
    Sequences.Assoc(name, " " + p.name + "=" + "\"" + p.value + "\"", rest);
    assert "" + " " + p.name == " " + p.name;
  }

  lemma FrameRegrouped(a: string, u: string, b: string, v: string, c: string, w: string, q: string, g: string)
    ensures a + u + (q + b) + v + (q + c) + w + (q + g) == a + u + q + (b + v + q + (c + w + q)) + g
  {
    var front, m := a + u + q, b + v + q;
    Sequences.Assoc(a + u, q, b);
    Sequences.Assoc(front, b, v);
    Sequences.Assoc(front + (b + v), q, c);
    Sequences.Assoc(front, b + v, q);
    Sequences.Assoc(front + m, c, w);
    Sequences.Assoc(front + m + (c + w), q, g);
    Sequences.Assoc(front + m, c + w, q);
    Sequences.Assoc(front, m, c + w + q);
  }

  lemma HeaderText()
    ensures Header() ==
      "&lt;" + ("DIDL-Lite" + (" xmlns=&quot;" + DIDL + "&quot;" + (" xmlns:dc=&quot;" + DC + "&quot;"
                                + (" xmlns:upnp=&quot;" + UPNP + "&quot;")))) + "&gt;"
  {
    HeaderUnfolds();
    HeaderTexts();
    hide DIDL, DC, UPNP, Header;
    var inner := " xmlns:dc=&quot;" + DC + "&quot;" + (" xmlns:upnp=&quot;" + UPNP + "&quot;");
    FrameRegrouped("&lt;DIDL-Lite xmlns=&quot;", DIDL, " xmlns:dc=&quot;", DC, " xmlns:upnp=&quot;", UPNP,
                   "&quot;", "&gt;");
    var first := " xmlns=&quot;" + DIDL + "&quot;";
    Sequences.Assoc("&lt;", "DIDL-Lite", " xmlns=&quot;");
    Sequences.Assoc("&lt;DIDL-Lite", " xmlns=&quot;", DIDL);
    Sequences.Assoc("&lt;DIDL-Lite", " xmlns=&quot;" + DIDL, "&quot;");
    Sequences.Assoc("&lt;DIDL-Lite", first, inner);
    Sequences.Assoc("&lt;", "DIDL-Lite", first + inner);
  }

  lemma HeaderUnfolds()
    ensures Header() == "&lt;DIDL-Lite xmlns=&quot;" + DIDL + "&quot; xmlns:dc=&quot;" + DC
      + "&quot; xmlns:upnp=&quot;" + UPNP + "&quot;&gt;"
  {
  }

  lemma HeaderTexts()
    ensures "&quot; xmlns:dc=&quot;" == "&quot;" + " xmlns:dc=&quot;"
    ensures "&quot; xmlns:upnp=&quot;" == "&quot;" + " xmlns:upnp=&quot;" && "&quot;&gt;" == "&quot;" + "&gt;"
    ensures "&lt;" + "DIDL-Lite" == "&lt;DIDL-Lite" && "&lt;DIDL-Lite" + " xmlns=&quot;" == "&lt;DIDL-Lite xmlns=&quot;"
  {
  }

  // ----- the whole text

  /** The nodes of the text: the opening tag of the document, the object, and the closing tag. */
  function DidlNodes(o: MediaObject, filter: bv32, shown: bv32, e: bool, time: string): seq<Node>
    requires ClassOf(o.mediaClass).Named()
  {
    [Node(Tag("DIDL-Lite", NamespacePairs()), "\r\n")]
    + (HeadNodes(o, filter, e) + MiddleNodes(o, shown, e, time) + TailNodes(o, shown, e)
       + [Node("/" + Kind(o), "\r\n")])
    + [Node("/DIDL-Lite", "")]
  }

  lemma LineEnds(ns: seq<Node>, tag: string)
    ensures Text(ns + [Node(tag, "\r\n")]) == Text(ns + [Node(tag, "")]) + "\r\n"
  {
    TextJoin(ns, [Node(tag, "\r\n")]);
    TextJoin(ns, [Node(tag, "")]);
    OneText(tag, "\r\n");
    OneText(tag, "");
    hide Text;
    Sequences.Assoc(Text(ns), "<" + tag + ">", "\r\n");
    assert "<" + tag + ">" + "" == "<" + tag + ">";
  }

  lemma OneText(tag: string, content: string)
    ensures Text([Node(tag, content)]) == "<" + tag + ">" + content
  {
    TextUnfolds([Node(tag, content)]);
    NoText();
    hide Text;
    assert [Node(tag, content)][1..] == [];
    assert "<" + tag + ">" + content + "" == "<" + tag + ">" + content;
  }

  lemma FooterIsWritten()
    ensures Footer() == XmlEscape.Escape("\r\n</DIDL-Lite>")
  {
    hide XmlEscape.Escape, Lettered;
    FrameNames();
    LettersAreThemselves("DIDL-Lite");
    Literals();
    LineEndIsItself();
    EscapeOfThree("\r\n", "</", "DIDL-Lite");
    XmlEscape.EscapeJoin("\r\n" + "</" + "DIDL-Lite", ">");
    assert "\r\n" + "</" + "DIDL-Lite" + ">" == "\r\n</DIDL-Lite>";
    assert "\r\n" + "&lt;/" + "DIDL-Lite" + "&gt;" == "\r\n&lt;/DIDL-Lite&gt;";
  }

  lemma LineEndIsItself()
    ensures XmlEscape.Escape("\r\n") == "\r\n"
  {
  }

  lemma DidlIsWritten(o: MediaObject, filter: bv32, e: bool, time: string)
    requires ClassOf(o.mediaClass).Named() && CleanObject(o, e) && AllTimely(o.res, time)
    ensures DidlText(o, filter, e, true, time) + Footer()
      == XmlEscape.Escape(Text(DidlNodes(o, filter, ObjectFlags(o, filter), e, time)))
  {
    hide Class.Named, ClassOf, CleanObject, AllTimely, HeadNodes, MiddleNodes, TailNodes, Kind, XmlEscape.Escape, Text;
    hide Header, Footer, ObjectText, ObjectFlags, Tag;
    var shown := ObjectFlags(o, filter);
    DidlTextIs(o, filter, e, true, time);
    ObjectIsWritten(o, filter, shown, e, time);
    HeaderIsWritten();
    FooterIsWritten();
    var ns := HeadNodes(o, filter, e) + MiddleNodes(o, shown, e, time) + TailNodes(o, shown, e);
    var tag := Tag("DIDL-Lite", NamespacePairs());
    var document, line := Text(ObjectNodes(o, filter, shown, e, time)), Text(ns + [Node("/" + Kind(o), "\r\n")]);
    LineEnds(ns, "/" + Kind(o));
    OneText(tag, "\r\n");
    OneText("/DIDL-Lite", "");
    TextJoin([Node(tag, "\r\n")], ns + [Node("/" + Kind(o), "\r\n")]);
    TextJoin([Node(tag, "\r\n")] + (ns + [Node("/" + Kind(o), "\r\n")]), [Node("/DIDL-Lite", "")]);
    XmlEscape.EscapeJoin("<" + tag + ">", "\r\n" + document);
    XmlEscape.EscapeJoin("<" + tag + ">" + ("\r\n" + document), "\r\n</DIDL-Lite>");
    FrameText("<" + tag + ">", document);
  }

  lemma FrameText(open: string, inner: string)
    ensures open + ("\r\n" + inner) + "\r\n</DIDL-Lite>"
      == open + "\r\n" + (inner + "\r\n") + ("<" + "/DIDL-Lite" + ">" + "")
  {
    assert "\r\n" + ("<" + "/DIDL-Lite" + ">" + "") == "\r\n</DIDL-Lite>";
    Sequences.Assoc(open, "\r\n", inner);
    Sequences.Assoc(open + "\r\n", inner, "\r\n");
    Sequences.Assoc(open + "\r\n" + inner, "\r\n", "<" + "/DIDL-Lite" + ">" + "");
  }

  lemma DidlIsReadable(o: MediaObject, filter: bv32, shown: bv32, e: bool, time: string)
    requires ClassOf(o.mediaClass).Named() && CleanObject(o, e) && AllTimely(o.res, time)
    ensures AllReadable(DidlNodes(o, filter, shown, e, time)) && Fine(NamespacePairs())
  {
    hide Class.Named, ClassOf, HeadNodes, TailNodes, ResourcesNodes, CleanObject, AllTimely, CleanResource, Has, Kind;
    hide AllReadable, Tag, AllClean;
    HeadIsReadable(o, filter, e);
    NoneIsReadable();
    ResourcesAreClean(o, e);
    ResourcesAreReadable(o.res, shown, e, time);
    TailPartIsReadable(o, shown, e);
    NamespacesAreClean();
    var head, middle, tail := HeadNodes(o, filter, e), MiddleNodes(o, shown, e, time), TailNodes(o, shown, e);
    var first, last := [Node(Tag("DIDL-Lite", NamespacePairs()), "\r\n")], [Node("/" + Kind(o), "\r\n")];
    ReadableJoin(head, middle);
    ReadableJoin(head + middle, tail);
    ReadableJoin(head + middle + tail, last);
    ReadableJoin(first, head + middle + tail + last);
    ReadableJoin(first + (head + middle + tail + last), [Node("/DIDL-Lite", "")]);
  }

  lemma TailPartIsReadable(o: MediaObject, shown: bv32, e: bool)
    requires CleanObject(o, e)
    ensures AllReadable(TailNodes(o, shown, e)) && AllReadable([Node("/" + Kind(o), "\r\n")])
  {
    TailIsReadable(o, shown, e);
    EndIsReadable(o);
    hide TailNodes, Kind, Readable, CleanObject;
    var tail, end := TailNodes(o, shown, e), [Node("/" + Kind(o), "")];
    forall k | 0 <= k < |tail| ensures Readable(tail[k]) {
      assert (tail + end)[k] == tail[k];
    }
    LineEndIsReadable(end[0]);
  }

  lemma LineEndIsReadable(n: Node)
    requires Readable(n)
    ensures Readable(n.(content := "\r\n"))
  {
    assert '<' !in "\r\n";
  }

  lemma NamespacesAreClean()
    ensures AllReadable([Node(Tag("DIDL-Lite", NamespacePairs()), "\r\n")]) && AllReadable([Node("/DIDL-Lite", "")])
    ensures Fine(NamespacePairs())
  {
    DidlIsLettered();
    DcIsLettered();
    UpnpIsLettered();
    FrameNames();
    hide Lettered, DIDL, DC, UPNP, XmlEscape.Escape, Unmarked, Clean;
    LettersAreThemselves("DIDL-Lite");
    LettersAreThemselves(DIDL);
    LettersAreThemselves(DC);
    LettersAreThemselves(UPNP);
    LettersAreThemselves("xmlns");
    LettersAreThemselves("xmlns:dc");
    LettersAreThemselves("xmlns:upnp");
    assert AllClean(NamespacePairs());
    hide Tag, AllClean;
    TagIsClean("DIDL-Lite", NamespacePairs());
    FrameIsReadable(Tag("DIDL-Lite", NamespacePairs()));
  }

  lemma FrameIsReadable(tag: string)
    requires '<' !in tag && '>' !in tag
    ensures AllReadable([Node(tag, "\r\n")]) && AllReadable([Node("/DIDL-Lite", "")])
  {
    assert '<' !in "\r\n" && '<' !in "/DIDL-Lite" && '>' !in "/DIDL-Lite";
  }

  /** Text and footer, unescaped once and taken apart, are the document with the object in it. */
  lemma DidlNodesAreRead(o: MediaObject, filter: bv32, e: bool, time: string)
    requires ClassOf(o.mediaClass).Named() && CleanObject(o, e) && AllTimely(o.res, time)
    ensures Nodes(XmlEscape.Unescape(DidlText(o, filter, e, true, time) + Footer()))
      == DidlNodes(o, filter, ObjectFlags(o, filter), e, time)
  {
    hide Class.Named, ClassOf, CleanObject, AllTimely, DidlText, DidlNodes, ObjectFlags, Text, Nodes, AllReadable;
    hide Footer;
    hide XmlEscape.Escape, XmlEscape.Unescape, Readable;
    var ns := DidlNodes(o, filter, ObjectFlags(o, filter), e, time);
    DidlIsWritten(o, filter, e, time);
    DidlIsReadable(o, filter, ObjectFlags(o, filter), e, time);
    XmlEscape.UnescapeOfEscape(Text(ns));
    ReadableNodes(ns);
    NodesOfText("", ns);
    assert "" + Text(ns) == Text(ns);
  }

  /** The document declares its three name spaces. */
  lemma NamespacesAreRead()
    ensures var tag := Tag("DIDL-Lite", NamespacePairs());
      && ValueOf(tag, "xmlns") == Some("urn:schemas-upnp-org:metadata-1-0/DIDL-Lite/")
      && ValueOf(tag, "xmlns:dc") == Some("http://purl.org/dc/elements/1.1/")
      && ValueOf(tag, "xmlns:upnp") == Some("urn:schemas-upnp-org:metadata-1-0/upnp/")
  {
    NamespacesAreClean();
    FrameNames();
    hide Tag, ValueOf, Fine, AllReadable, Lettered;
    var ps := NamespacePairs();
    AttributeOfTag("DIDL-Lite", ps, "xmlns");
    AttributeOfTag("DIDL-Lite", ps, "xmlns:dc");
    AttributeOfTag("DIDL-Lite", ps, "xmlns:upnp");
    assert ps[1..][1..] == ps[2..];
    assert "xmlns" != "xmlns:dc" && "xmlns" != "xmlns:upnp" && "xmlns:dc" != "xmlns:upnp";
    hide DIDL, DC, UPNP;
    assert First(ps[2..], "xmlns:upnp") == Some(UPNP) && First(ps[1..], "xmlns:upnp") == First(ps[2..], "xmlns:upnp");
    assert First(ps[1..], "xmlns:dc") == Some(DC);
  }
}
