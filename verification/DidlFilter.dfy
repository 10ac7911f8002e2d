/** The filter string of a Browse request, as the bits of `CdsToDidl_GetFilterBitString`. */
module DidlFilter {
  import opened Options
  import Splitter
  import Sequences

  const Creator: bv32 := 0x0001
  const Res: bv32 := 0x0002
  const Resolution: bv32 := 0x0004
  const Duration: bv32 := 0x0008
  const Bitrate: bv32 := 0x0010
  const ColorDepth: bv32 := 0x0020
  const Size: bv32 := 0x0040
  const ChildCount: bv32 := 0x0080
  const Searchable: bv32 := 0x0100
  const Album: bv32 := 0x0200
  const Genre: bv32 := 0x0400
  const BitsPerSample: bv32 := 0x0800
  const SampleFrequency: bv32 := 0x1000
  const NrAudioChannels: bv32 := 0x2000
  const Protection: bv32 := 0x4000

  const AllBits: bv32 := 0xFFFF_FFFF

  /** The bits a filter string can ask for one by one. */
  const Supported: bv32 := 0x7FFF
  const ResAttributes: bv32 :=
    Resolution | Duration | Bitrate | ColorDepth | Size | BitsPerSample | SampleFrequency | NrAudioChannels | Protection

  function Or(a: bv32, b: bv32): bv32 {
    a | b
  }

  function Lower(c: char): char {
    if 'A' <= c <= 'Z' then (c as int + 32) as char else c
  }

  predicate IsAlpha(c: char) {
    'a' <= Lower(c) <= 'z'
  }

  /** `strncasecmp(s, pattern, strlen(pattern)) == 0` */
  predicate StartsWith(s: string, pattern: string)
    decreases |pattern|
  {
    pattern == "" || (s != "" && Lower(s[0]) == Lower(pattern[0]) && StartsWith(s[1..], pattern[1..]))
  }

  /** The bits for the field that starts at the head of s, by its first character. */
  function FieldBits(s: string): bv32
    requires s != ""
  {
    match s[0]
    case '@' =>
      if StartsWith(s, "@childCount") then ChildCount
      else if StartsWith(s, "@searchable") then Searchable else 0
    case 'c' =>
      if StartsWith(s, "container@childCount") then ChildCount
      else if StartsWith(s, "container@searchable") then Searchable else 0
    case 'd' =>
      if StartsWith(s, "dc:creator") then Creator else 0
    case 'u' =>
      if StartsWith(s, "upnp:album") then Album
      else if StartsWith(s, "upnp:genre") then Genre else 0
    case 'r' => ResBits(s)
    case _ => 0
  }

  function ResBits(s: string): bv32 {
    if StartsWith(s, "res@bitrate") then Or(Res, Bitrate)
    else if StartsWith(s, "res@bitsPerSample") then Or(Res, BitsPerSample)
    else if StartsWith(s, "res@colorDepth") then Or(Res, ColorDepth)
    else if StartsWith(s, "res@duration") then Or(Res, Duration)
    else if StartsWith(s, "res@nrAudioChannels") then Or(Res, NrAudioChannels)
    else if StartsWith(s, "res@protection") then Or(Res, Protection)
    else if StartsWith(s, "res@resolution") then Or(Res, Resolution)
    else if StartsWith(s, "res@sampleFrequency") then Or(Res, SampleFrequency)
    else if StartsWith(s, "res@size") then Or(Res, Size)
    else if StartsWith(s, "res") then Res
    else 0
  }

  /** The characters that decide a field; anything else is passed over. */
  predicate Decides(c: char) {
    c == '@' || IsAlpha(c)
  }

  /** The one-pass scan; nextComma says that the rest of the field is skipped. */
  function Scan(s: string, nextComma: bool): bv32 {
    if s == "" then 0
    else if nextComma then Scan(s[1..], s[0] != ',')
    else Or(FieldBits(s), Scan(s[1..], Decides(s[0])))
  }

  function Bits(filter: Option<string>): bv32 {
    if filter.None? then 0
    else if filter.value != "" && filter.value[0] == '*' then AllBits
    else Scan(filter.value, false)
  }

  // ----- a field decides for itself

  predicate NoComma(s: string) {
    forall k :: 0 <= k < |s| ==> s[k] != ','
  }

  /** What follows a comma cannot complete a pattern. */
  lemma {:induction false} PatternWithinField(s: string, rest: string, pattern: string)
    requires NoComma(pattern)
    ensures StartsWith(s + ("," + rest), pattern) == StartsWith(s, pattern)
    decreases |pattern|
  {
    var t := s + ("," + rest);
    if pattern != "" {
      if s == "" {
        assert t[0] == ',' && pattern[0] != ',';
      } else {
        assert t[0] == s[0] && t[1..] == s[1..] + ("," + rest);
        PatternWithinField(s[1..], rest, pattern[1..]);
      }
    }
  }

  lemma FieldBitsWithin(s: string, rest: string)
    requires s != ""
    ensures FieldBits(s + ("," + rest)) == FieldBits(s)
  {
    hide StartsWith;
    assert (s + ("," + rest))[0] == s[0];
    PatternWithinField(s, rest, "@childCount");
    PatternWithinField(s, rest, "@searchable");
    PatternWithinField(s, rest, "container@childCount");
    PatternWithinField(s, rest, "container@searchable");
    PatternWithinField(s, rest, "dc:creator");
    PatternWithinField(s, rest, "upnp:album");
    PatternWithinField(s, rest, "upnp:genre");
    ResBitsWithin(s, rest);
    hide ResBits;
  }

  lemma ResBitsWithin(s: string, rest: string)
    ensures ResBits(s + ("," + rest)) == ResBits(s)
  {
    hide StartsWith;
    PatternWithinField(s, rest, "res@bitrate");
    PatternWithinField(s, rest, "res@bitsPerSample");
    PatternWithinField(s, rest, "res@colorDepth");
    PatternWithinField(s, rest, "res@duration");
    PatternWithinField(s, rest, "res@nrAudioChannels");
    PatternWithinField(s, rest, "res@protection");
    PatternWithinField(s, rest, "res@resolution");
    PatternWithinField(s, rest, "res@sampleFrequency");
    PatternWithinField(s, rest, "res@size");
    PatternWithinField(s, rest, "res");
  }

  lemma OrAssoc(a: bv32, b: bv32, c: bv32)
    ensures Or(a, Or(b, c)) == Or(Or(a, b), c) && Or(0, c) == c && Or(a, 0) == a
  {
  }

  lemma {:induction false} ScanJoin(a: string, b: string, nextComma: bool)
    ensures Scan(a + ("," + b), nextComma) == Or(Scan(a, nextComma), Scan(b, false))
  {
    var t := a + ("," + b);
    hide FieldBits, Or;
    if a == "" {
      assert t[0] == ',' && t[1..] == b;
      CommaDecidesNothing(t);
      OrAssoc(0, 0, Scan(b, false));
    } else {
      assert t[0] == a[0] && t[1..] == a[1..] + ("," + b);
      ScanJoin(a[1..], b, if nextComma then a[0] != ',' else Decides(a[0]));
      FieldBitsWithin(a, b);
      OrAssoc(FieldBits(a), Scan(a[1..], Decides(a[0])), Scan(b, false));
    }
  }

  lemma CommaDecidesNothing(t: string)
    requires t != "" && t[0] == ','
    ensures FieldBits(t) == 0 && !Decides(t[0])
  {
  }

  /** The bits of `a,b` are the bits of a or the bits of b, unless b alone would mean everything. */
  lemma Compositional(a: string, b: string)
    requires b != "" ==> b[0] != '*'
    ensures Bits(Some(a + "," + b)) == Or(Bits(Some(a)), Bits(Some(b)))
  {
    assert a + "," + b == a + ("," + b);
    ScanJoin(a, b, false);
    AllAbsorb(Bits(Some(b)));
    hide Scan, Or;
  }

  lemma AllAbsorb(x: bv32)
    ensures Or(AllBits, x) == AllBits
  {
  }

  // ----- the scan against split-and-classify

  function Strip(field: string): (r: string)
    ensures |r| <= |field| && (r != "" ==> Decides(r[0]))
  {
    if field == "" || Decides(field[0]) then field else Strip(field[1..])
  }

  /** One field, on its own: its first deciding character starts the name. */
  function Classify(field: string): bv32 {
    var name := Strip(field);
    if name == "" then 0 else FieldBits(name)
  }

  function OrAll(fields: seq<string>): bv32 {
    if fields == [] then 0 else Or(Classify(fields[0]), OrAll(fields[1..]))
  }

  lemma {:induction false} SkippedField(s: string)
    requires NoComma(s)
    ensures Scan(s, true) == 0
  {
    if s != "" {
      SkippedField(s[1..]);
    }
  }

  lemma NothingDecided(s: string)
    requires s != "" && !Decides(s[0])
    ensures FieldBits(s) == 0
  {
  }

  lemma {:induction false} ScanOfField(field: string)
    requires NoComma(field)
    ensures Scan(field, false) == Classify(field)
  {
    hide FieldBits, Or;
    if field != "" {
      if Decides(field[0]) {
        SkippedField(field[1..]);
        OrAssoc(FieldBits(field), 0, 0);
      } else {
        NothingDecided(field);
        ScanOfField(field[1..]);
        OrAssoc(0, 0, Scan(field[1..], false));
      }
    }
  }

  lemma {:induction false} ScanOfFields(fields: seq<string>)
    requires fields != [] && forall k :: 0 <= k < |fields| ==> NoComma(fields[k])
    ensures Scan(Splitter.Join(fields, ","), false) == OrAll(fields)
  {
    ScanOfField(fields[0]);
    hide Classify, NoComma, Or;
    if |fields| == 1 {
      OrAssoc(Classify(fields[0]), 0, 0);
      assert fields[1..] == [];
    } else {
      var rest := Splitter.Join(fields[1..], ",");
      assert Splitter.Join(fields, ",") == fields[0] + ("," + rest);
      ScanJoin(fields[0], rest, false);
      ScanOfFields(fields[1..]);
      hide Scan;
    }
  }

  lemma FreeOfComma(f: string)
    requires Splitter.Free(f, ",")
    ensures NoComma(f)
  {
    forall k | 0 <= k < |f| ensures f[k] != ',' {
      assert !Splitter.Occurs(f, ",", k);
      assert f[k..][..1] == [f[k]];
    }
  }

  /** The one-pass scan gives the bits of the fields that the comma splits the filter into. */
  lemma {:induction false} ScanIsSplitAndClassify(filter: string)
    requires filter != "" ==> filter[0] != '*'
    ensures Bits(Some(filter)) == OrAll(Splitter.Split(filter, ","))
  {
    var fields := Splitter.Split(filter, ",");
    Splitter.JoinOfSplit(filter, ",");
    Splitter.FieldsAreFree(filter, ",");
    hide Splitter.Split, Splitter.Join, OrAll, Scan;
    forall k | 0 <= k < |fields| ensures NoComma(fields[k]) {
      FreeOfComma(fields[k]);
    }
    ScanOfFields(fields);
  }

  lemma {:induction false} OrAllJoin(a: seq<string>, b: seq<string>)
    ensures OrAll(a + b) == Or(OrAll(a), OrAll(b))
  {
    hide Classify, Or;
    if a == [] {
      assert a + b == b;
      OrAssoc(0, 0, OrAll(b));
    } else {
      assert (a + b)[1..] == a[1..] + b;
      OrAllJoin(a[1..], b);
      OrAssoc(Classify(a[0]), OrAll(a[1..]), OrAll(b));
    }
  }

  /** Fields may come in any order. */
  lemma {:induction false} OrderOfFields(a: seq<string>, b: seq<string>)
    requires multiset(a) == multiset(b)
    ensures OrAll(a) == OrAll(b)
  {
    if a == [] {
      assert |multiset(a)| == |b|;
    } else {
      var f := a[0];
      assert a == [f] + a[1..];
      assert f in multiset(b);
      var i :| 0 <= i < |b| && b[i] == f;
      var before, after := b[..i], b[i + 1..];
      assert b == before + ([f] + after);
      OthersKept(a, before, f, after);
      hide Or, Classify, OrAll;
      OrderOfFields(a[1..], before + after);
      OrAllJoin(before, after);
      OrAllJoin(before, [f] + after);
      OrAllStep(f, after);
      OrAllStep(f, a[1..]);
      SwapOr(Classify(f), OrAll(before), OrAll(after));
    }
  }

  lemma OthersKept(a: seq<string>, before: seq<string>, f: string, after: seq<string>)
    requires a != [] && f == a[0] && multiset(a) == multiset(before + ([f] + after))
    ensures multiset(a[1..]) == multiset(before + after)
  {
    assert a == [f] + a[1..];
    assert multiset(a[1..]) == multiset(a) - multiset{f};
    assert multiset(before + ([f] + after)) == multiset(before) + multiset{f} + multiset(after);
  }

  lemma OrAllStep(f: string, rest: seq<string>)
    ensures OrAll([f] + rest) == Or(Classify(f), OrAll(rest))
  {
    assert ([f] + rest)[1..] == rest;
  }

  lemma SwapOr(f: bv32, a: bv32, b: bv32)
    ensures Or(f, Or(a, b)) == Or(a, Or(f, b))
  {
  }

  /** So two filters with the same fields mean the same, unless one starts with an asterisk. */
  lemma {:induction false} OrderDoesNotMatter(a: string, b: string)
    requires a != "" ==> a[0] != '*'
    requires b != "" ==> b[0] != '*'
    requires multiset(Splitter.Split(a, ",")) == multiset(Splitter.Split(b, ","))
    ensures Bits(Some(a)) == Bits(Some(b))
  {
    ScanIsSplitAndClassify(a);
    ScanIsSplitAndClassify(b);
    OrderOfFields(Splitter.Split(a, ","), Splitter.Split(b, ","));
  }

  // ----- what the bits promise

  predicate Consistent(bits: bv32) {
    bits & !Supported == 0 && (bits & ResAttributes != 0 ==> bits & Res != 0)
  }

  lemma ConsistentOr(a: bv32, b: bv32)
    requires Consistent(a) && Consistent(b)
    ensures Consistent(Or(a, b))
  {
  }

  lemma ConstantsConsistent()
    ensures Consistent(0) && Consistent(Creator) && Consistent(Res) && Consistent(Album) && Consistent(Genre)
    ensures Consistent(ChildCount) && Consistent(Searchable)
  {
  }

  lemma AttributeConsistent(attribute: bv32)
    requires attribute & !Supported == 0
    ensures Consistent(Or(Res, attribute))
  {
  }

  lemma ResBitsConsistent(s: string)
    ensures Consistent(ResBits(s))
  {
    ConstantsConsistent();
    AttributeConsistent(Bitrate);
    AttributeConsistent(BitsPerSample);
    AttributeConsistent(ColorDepth);
    AttributeConsistent(Duration);
    AttributeConsistent(NrAudioChannels);
    AttributeConsistent(Protection);
    AttributeConsistent(Resolution);
    AttributeConsistent(SampleFrequency);
    AttributeConsistent(Size);
    hide Or, Consistent, StartsWith;
  }

  lemma FieldBitsConsistent(s: string)
    requires s != ""
    ensures Consistent(FieldBits(s))
  {
    ConstantsConsistent();
    ResBitsConsistent(s);
    hide Or, Consistent, StartsWith, ResBits;
  }

  lemma {:induction false} ScanConsistent(s: string, nextComma: bool)
    ensures Consistent(Scan(s, nextComma))
  {
    hide FieldBits, Or;
    if s == "" {
      ConstantsConsistent();
    } else {
      hide Consistent;
      if nextComma {
        ScanConsistent(s[1..], s[0] != ',');
      } else {
        ScanConsistent(s[1..], Decides(s[0]));
        FieldBitsConsistent(s);
        ConsistentOr(FieldBits(s), Scan(s[1..], Decides(s[0])));
      }
    }
  }

  /** Any attribute of a resource brings the resource with it; without an asterisk no other bits are set. */
  lemma ResIsImplied(filter: Option<string>)
    ensures Bits(filter) & ResAttributes != 0 ==> Bits(filter) & Res != 0
    ensures Bits(filter) & !Supported == 0 || Bits(filter) == AllBits
  {
    if filter.Some? {
      ScanConsistent(filter.value, false);
    }
  }

  // ----- the loop

  method GetFilterBitString(filter: Option<string>) returns (retVal: bv32)
    ensures retVal == Bits(filter)
  {
    retVal := 0;
    if filter.Some? {
      var text := filter.value;
      if text == "" || text[0] != '*' {
        var i, nextComma := 0, false;
        hide FieldBits, Or;
        assert text[0..] == text;
        OrAssoc(0, 0, Scan(text, false));
        while i < |text|
          invariant i <= |text| && Or(retVal, Scan(text[i..], nextComma)) == Scan(text, false)
        {
          assert text[i..][0] == text[i] && text[i..][1..] == text[i + 1..];
          if !nextComma {
            OrAssoc(retVal, FieldBits(text[i..]), Scan(text[i + 1..], Decides(text[i])));
            retVal := Or(retVal, FieldBits(text[i..]));
            nextComma := Decides(text[i]);
          } else if text[i] == ',' {
            nextComma := false;
          }
          i := i + 1;
        }
        OrAssoc(retVal, 0, 0);
      } else {
        retVal := AllBits;
      }
    }
  }

  // ----- what each name asks for

  predicate SameLetter(c: char, d: char) {
    c == d || ('A' <= c <= 'Z' && d == (c as int + 32) as char) || ('A' <= d <= 'Z' && c == (d as int + 32) as char)
  }

  /** The field names it: behind anything that is neither a letter nor an @, the name stands with its first
      character as it is and the others in any case; what follows does not count. */
  ghost predicate Names(field: string, name: string)
    requires name != ""
  {
    exists i :: 0 <= i && i + |name| <= |field| && NamesAt(field, name, i)
  }

  predicate NamesAt(field: string, name: string, i: nat)
    requires name != "" && i + |name| <= |field|
  {
    && (forall j :: 0 <= j < i ==> !('a' <= field[j] <= 'z') && !('A' <= field[j] <= 'Z') && field[j] != '@')
    && field[i] == name[0]
    && forall k :: 0 <= k < |name| ==> SameLetter(field[i + k], name[k])
  }

  ghost predicate Mentions(filter: string, name: string)
    requires name != ""
  {
    var fields := Splitter.Split(filter, ",");
    exists k :: 0 <= k < |fields| && Names(fields[k], name)
  }

  lemma SameIsLower(c: char, d: char)
    ensures SameLetter(c, d) <==> Lower(c) == Lower(d)
  {
  }

  lemma {:induction false} StartsMeans(s: string, pattern: string)
    ensures StartsWith(s, pattern) <==>
      |pattern| <= |s| && forall k :: 0 <= k < |pattern| ==> Lower(s[k]) == Lower(pattern[k])
    decreases |pattern|
  {
    hide Lower;
    if pattern != "" && s != "" {
      StartsMeans(s[1..], pattern[1..]);
      if StartsWith(s, pattern) {
        forall k | 0 <= k < |pattern| ensures Lower(s[k]) == Lower(pattern[k]) {
          if k > 0 {
            assert s[k] == s[1..][k - 1] && pattern[k] == pattern[1..][k - 1];
          }
        }
      } else if |pattern| <= |s| && Lower(s[0]) == Lower(pattern[0]) {
        var k :| 0 <= k < |pattern[1..]| && Lower(s[1..][k]) != Lower(pattern[1..][k]);
        assert s[k + 1] == s[1..][k] && pattern[k + 1] == pattern[1..][k];
      }
    }
  }

  lemma {:induction false} StripMeans(field: string) returns (i: nat)
    ensures i <= |field| && Strip(field) == field[i..]
    ensures forall j :: 0 <= j < i ==> !Decides(field[j])
  {
    if field == "" || Decides(field[0]) {
      i := 0;
    } else {
      var k := StripMeans(field[1..]);
      i := k + 1;
      hide Decides;
      assert forall j :: 1 <= j < i ==> field[j] == field[1..][j - 1];
    }
  }

  /** A text that starts with the name, its first character as it is. */
  predicate Opens(s: string, name: string)
    requires name != ""
  {
    s != "" && s[0] == name[0] && StartsWith(s, name)
  }

  /** A field names what its stripped text starts with. */
  lemma NamesMeans(field: string, name: string)
    requires name != "" && Decides(name[0])
    ensures Names(field, name) <==> Opens(Strip(field), name)
  {
    var i := StripMeans(field);
    var t := Strip(field);
    StartsMeans(t, name);
    hide Strip, StartsWith;
    if t != "" && t[0] == name[0] && StartsWith(t, name) {
      forall k | 0 <= k < |name| ensures SameLetter(field[i + k], name[k]) {
        assert field[i + k] == t[k];
        SameIsLower(t[k], name[k]);
      }
      assert NamesAt(field, name, i);
    }
    if Names(field, name) {
      var j :| 0 <= j && j + |name| <= |field| && NamesAt(field, name, j);
      assert Decides(field[j]) && forall k :: 0 <= k < j ==> !Decides(field[k]);
      assert t == "" || Decides(t[0]) by { StripDecides(field); }
      assert i < |field| ==> Decides(field[i]) by { StripDecides(field); }
      assert i == j;
      forall k | 0 <= k < |name| ensures Lower(t[k]) == Lower(name[k]) {
        assert t[k] == field[i + k];
        SameIsLower(t[k], name[k]);
      }
    }
  }

  lemma StripDecides(field: string)
    ensures Strip(field) != "" ==> Decides(Strip(field)[0])
  {
  }

  /** Two characters of each resource name tell it from the others. */
  lemma ResMarks(s: string)
    ensures StartsWith(s, "res@bitrate") ==> |s| > 7 && Lower(s[4]) == 'b' && Lower(s[7]) == 'r'
    ensures StartsWith(s, "res@bitsPerSample") ==> |s| > 7 && Lower(s[4]) == 'b' && Lower(s[7]) == 's'
    ensures StartsWith(s, "res@colorDepth") ==> |s| > 7 && Lower(s[4]) == 'c'
    ensures StartsWith(s, "res@duration") ==> |s| > 7 && Lower(s[4]) == 'd'
    ensures StartsWith(s, "res@nrAudioChannels") ==> |s| > 7 && Lower(s[4]) == 'n'
    ensures StartsWith(s, "res@protection") ==> |s| > 7 && Lower(s[4]) == 'p'
    ensures StartsWith(s, "res@resolution") ==> |s| > 7 && Lower(s[4]) == 'r'
    ensures StartsWith(s, "res@sampleFrequency") ==> |s| > 7 && Lower(s[4]) == 's' && Lower(s[5]) == 'a'
    ensures StartsWith(s, "res@size") ==> |s| > 7 && Lower(s[4]) == 's' && Lower(s[5]) == 'i'
  {
    StartsMeans(s, "res@bitrate");
    StartsMeans(s, "res@bitsPerSample");
    StartsMeans(s, "res@colorDepth");
    StartsMeans(s, "res@duration");
    StartsMeans(s, "res@nrAudioChannels");
    StartsMeans(s, "res@protection");
    StartsMeans(s, "res@resolution");
    StartsMeans(s, "res@sampleFrequency");
    StartsMeans(s, "res@size");
    hide StartsWith;
  }

  lemma ResAttributesStart(s: string)
    ensures StartsWith(s, "res@bitrate") || StartsWith(s, "res@bitsPerSample") || StartsWith(s, "res@colorDepth") ==>
      StartsWith(s, "res")
    ensures StartsWith(s, "res@duration") || StartsWith(s, "res@nrAudioChannels") || StartsWith(s, "res@protection") ==>
      StartsWith(s, "res")
    ensures StartsWith(s, "res@resolution") || StartsWith(s, "res@sampleFrequency") || StartsWith(s, "res@size") ==>
      StartsWith(s, "res")
    ensures StartsWith(s, "res") ==> s != "" && Lower(s[0]) == 'r'
  {
    StartsMeans(s, "res");
    StartsMeans(s, "res@bitrate");
    StartsMeans(s, "res@bitsPerSample");
    StartsMeans(s, "res@colorDepth");
    StartsMeans(s, "res@duration");
    StartsMeans(s, "res@nrAudioChannels");
    StartsMeans(s, "res@protection");
    StartsMeans(s, "res@resolution");
    StartsMeans(s, "res@sampleFrequency");
    StartsMeans(s, "res@size");
    hide StartsWith;
  }

  lemma ResBitsMean(s: string)
    ensures ResBits(s) & 0x0002 != 0 <==> StartsWith(s, "res")
    ensures ResBits(s) & 0x0010 != 0 <==> StartsWith(s, "res@bitrate")
    ensures ResBits(s) & 0x0800 != 0 <==> StartsWith(s, "res@bitsPerSample")
    ensures ResBits(s) & 0x0020 != 0 <==> StartsWith(s, "res@colorDepth")
    ensures ResBits(s) & 0x0008 != 0 <==> StartsWith(s, "res@duration")
    ensures ResBits(s) & 0x2000 != 0 <==> StartsWith(s, "res@nrAudioChannels")
    ensures ResBits(s) & 0x4000 != 0 <==> StartsWith(s, "res@protection")
    ensures ResBits(s) & 0x0004 != 0 <==> StartsWith(s, "res@resolution")
    ensures ResBits(s) & 0x1000 != 0 <==> StartsWith(s, "res@sampleFrequency")
    ensures ResBits(s) & 0x0040 != 0 <==> StartsWith(s, "res@size")
    ensures ResBits(s) & 0x0781 == 0
  {
    hide StartsWith, Lower;
    ResMarks(s);
    ResAttributesStart(s);
  }

  lemma OtherMarks(s: string)
    ensures StartsWith(s, "@childCount") ==> |s| > 1 && Lower(s[1]) == 'c'
    ensures StartsWith(s, "@searchable") ==> |s| > 1 && Lower(s[1]) == 's'
    ensures StartsWith(s, "container@childCount") ==> |s| > 10 && Lower(s[10]) == 'c'
    ensures StartsWith(s, "container@searchable") ==> |s| > 10 && Lower(s[10]) == 's'
    ensures StartsWith(s, "upnp:album") ==> |s| > 5 && Lower(s[5]) == 'a'
    ensures StartsWith(s, "upnp:genre") ==> |s| > 5 && Lower(s[5]) == 'g'
  {
    StartsMeans(s, "@childCount");
    StartsMeans(s, "@searchable");
    StartsMeans(s, "container@childCount");
    StartsMeans(s, "container@searchable");
    StartsMeans(s, "upnp:album");
    StartsMeans(s, "upnp:genre");
    hide StartsWith;
  }

  predicate Asks(bits: bv32, mask: bv32) {
    bits & mask != 0
  }

  lemma OrMeans(a: bv32, b: bv32, mask: bv32)
    ensures Asks(Or(a, b), mask) <==> Asks(a, mask) || Asks(b, mask)
  {
    assert (a | b) & mask == (a & mask) | (b & mask);
  }

  lemma NothingAsked(mask: bv32)
    ensures !Asks(0, mask)
  {
    assert 0 & mask == 0;
  }

  lemma ResFieldBits(s: string)
    requires s != ""
    ensures FieldBits(s) & 0x0002 != 0 <==> s[0] == 'r' && ResBits(s) & 0x0002 != 0
    ensures FieldBits(s) & 0x0010 != 0 <==> s[0] == 'r' && ResBits(s) & 0x0010 != 0
    ensures FieldBits(s) & 0x0800 != 0 <==> s[0] == 'r' && ResBits(s) & 0x0800 != 0
    ensures FieldBits(s) & 0x0020 != 0 <==> s[0] == 'r' && ResBits(s) & 0x0020 != 0
    ensures FieldBits(s) & 0x0008 != 0 <==> s[0] == 'r' && ResBits(s) & 0x0008 != 0
    ensures FieldBits(s) & 0x2000 != 0 <==> s[0] == 'r' && ResBits(s) & 0x2000 != 0
    ensures FieldBits(s) & 0x4000 != 0 <==> s[0] == 'r' && ResBits(s) & 0x4000 != 0
    ensures FieldBits(s) & 0x0004 != 0 <==> s[0] == 'r' && ResBits(s) & 0x0004 != 0
    ensures FieldBits(s) & 0x1000 != 0 <==> s[0] == 'r' && ResBits(s) & 0x1000 != 0
    ensures FieldBits(s) & 0x0040 != 0 <==> s[0] == 'r' && ResBits(s) & 0x0040 != 0
  {
    hide StartsWith, ResBits;
  }

  lemma OtherFieldBits(s: string)
    requires s != ""
    ensures FieldBits(s) & 0x0001 != 0 <==> Opens(s, "dc:creator")
    ensures FieldBits(s) & 0x0200 != 0 <==> Opens(s, "upnp:album")
    ensures FieldBits(s) & 0x0400 != 0 <==> Opens(s, "upnp:genre")
    ensures FieldBits(s) & 0x0080 != 0 <==> Opens(s, "@childCount") || Opens(s, "container@childCount")
    ensures FieldBits(s) & 0x0100 != 0 <==> Opens(s, "@searchable") || Opens(s, "container@searchable")
  {
    hide StartsWith, Lower, ResBits;
    OtherMarks(s);
    NoOtherBits(s);
  }

  lemma NoOtherBits(s: string)
    ensures ResBits(s) & 0x0001 == 0 && ResBits(s) & 0x0200 == 0 && ResBits(s) & 0x0400 == 0
    ensures ResBits(s) & 0x0080 == 0 && ResBits(s) & 0x0100 == 0
  {
    hide StartsWith;
  }

  lemma FieldBitsMean(s: string)
    requires s != ""
    ensures Asks(FieldBits(s), 0x0001) <==> Opens(s, "dc:creator")
    ensures Asks(FieldBits(s), 0x0200) <==> Opens(s, "upnp:album")
    ensures Asks(FieldBits(s), 0x0400) <==> Opens(s, "upnp:genre")
    ensures Asks(FieldBits(s), 0x0002) <==> Opens(s, "res")
    ensures Asks(FieldBits(s), 0x0010) <==> Opens(s, "res@bitrate")
    ensures Asks(FieldBits(s), 0x0800) <==> Opens(s, "res@bitsPerSample")
    ensures Asks(FieldBits(s), 0x0020) <==> Opens(s, "res@colorDepth")
    ensures Asks(FieldBits(s), 0x0008) <==> Opens(s, "res@duration")
    ensures Asks(FieldBits(s), 0x2000) <==> Opens(s, "res@nrAudioChannels")
    ensures Asks(FieldBits(s), 0x4000) <==> Opens(s, "res@protection")
    ensures Asks(FieldBits(s), 0x0004) <==> Opens(s, "res@resolution")
    ensures Asks(FieldBits(s), 0x1000) <==> Opens(s, "res@sampleFrequency")
    ensures Asks(FieldBits(s), 0x0040) <==> Opens(s, "res@size")
    ensures Asks(FieldBits(s), 0x0080) <==> Opens(s, "@childCount") || Opens(s, "container@childCount")
    ensures Asks(FieldBits(s), 0x0100) <==> Opens(s, "@searchable") || Opens(s, "container@searchable")
  {
    hide StartsWith, Lower, ResBits, FieldBits;
    ResFieldBits(s);
    OtherFieldBits(s);
    ResBitsMean(s);
    NotOpens(s);
  }

  lemma NotOpens(s: string)
    ensures Opens(s, "res") <==> s != "" && s[0] == 'r' && StartsWith(s, "res")
  {
  }

  lemma {:induction false} OrAllMeans(fields: seq<string>, mask: bv32)
    ensures Asks(OrAll(fields), mask) <==> exists k :: 0 <= k < |fields| && Asks(Classify(fields[k]), mask)
  {
    hide Classify, Or, Asks;
    if fields == [] {
      NothingAsked(mask);
    } else {
      var rest := fields[1..];
      OrAllMeans(rest, mask);
      OrMeans(Classify(fields[0]), OrAll(rest), mask);
      assert forall k :: 0 <= k < |rest| ==> rest[k] == fields[k + 1];
      if exists k :: 0 <= k < |fields| && Asks(Classify(fields[k]), mask) {
        var k :| 0 <= k < |fields| && Asks(Classify(fields[k]), mask);
        assert k > 0 ==> rest[k - 1] == fields[k];
      }
    }
  }

  /** The fields that ask for a bit are those that name it. */
  lemma OneMeans(field: string, mask: bv32, name: string)
    requires name != "" && Decides(name[0])
    requires forall s :: s != "" ==> (Asks(FieldBits(s), mask) <==> Opens(s, name))
    ensures Asks(Classify(field), mask) <==> Names(field, name)
  {
    hide FieldBits, Names, Strip, Asks, StartsWith;
    NamesMeans(field, name);
    NothingAsked(mask);
  }

  lemma EitherMeans(field: string, mask: bv32, name: string, other: string)
    requires name != "" && Decides(name[0]) && other != "" && Decides(other[0])
    requires forall s :: s != "" ==> (Asks(FieldBits(s), mask) <==> Opens(s, name) || Opens(s, other))
    ensures Asks(Classify(field), mask) <==> Names(field, name) || Names(field, other)
  {
    hide FieldBits, Names, Strip, Asks, StartsWith;
    NamesMeans(field, name);
    NamesMeans(field, other);
    NothingAsked(mask);
  }

  lemma MentionsMeans(filter: string, mask: bv32, name: string)
    requires filter != "" ==> filter[0] != '*'
    requires name != "" && Decides(name[0])
    requires forall s :: s != "" ==> (Asks(FieldBits(s), mask) <==> Opens(s, name))
    ensures Asks(Bits(Some(filter)), mask) <==> Mentions(filter, name)
  {
    hide Classify, Names, Bits, Splitter.Split, OrAll, Asks, Opens, FieldBits;
    var fields := Splitter.Split(filter, ",");
    ScanIsSplitAndClassify(filter);
    OrAllMeans(fields, mask);
    forall k | 0 <= k < |fields| ensures Asks(Classify(fields[k]), mask) <==> Names(fields[k], name) {
      OneMeans(fields[k], mask, name);
    }
  }

  lemma MentionsEither(filter: string, mask: bv32, name: string, other: string)
    requires filter != "" ==> filter[0] != '*'
    requires name != "" && Decides(name[0]) && other != "" && Decides(other[0])
    requires forall s :: s != "" ==> (Asks(FieldBits(s), mask) <==> Opens(s, name) || Opens(s, other))
    ensures Asks(Bits(Some(filter)), mask) <==> Mentions(filter, name) || Mentions(filter, other)
  {
    hide Classify, Names, Bits, Splitter.Split, OrAll, Asks, Opens, FieldBits;
    var fields := Splitter.Split(filter, ",");
    ScanIsSplitAndClassify(filter);
    OrAllMeans(fields, mask);
    forall k | 0 <= k < |fields|
      ensures Asks(Classify(fields[k]), mask) <==> Names(fields[k], name) || Names(fields[k], other)
    {
      EitherMeans(fields[k], mask, name, other);
    }
  }

  /** A filter without a leading asterisk asks for exactly what its fields name. */
  lemma FilterMeans(filter: string)
    requires filter != "" ==> filter[0] != '*'
    ensures Bits(Some(filter)) & 0x0001 != 0 <==> Mentions(filter, "dc:creator")
    ensures Bits(Some(filter)) & 0x0200 != 0 <==> Mentions(filter, "upnp:album")
    ensures Bits(Some(filter)) & 0x0400 != 0 <==> Mentions(filter, "upnp:genre")
    ensures Bits(Some(filter)) & 0x0002 != 0 <==> Mentions(filter, "res")
    ensures Bits(Some(filter)) & 0x0010 != 0 <==> Mentions(filter, "res@bitrate")
    ensures Bits(Some(filter)) & 0x0800 != 0 <==> Mentions(filter, "res@bitsPerSample")
    ensures Bits(Some(filter)) & 0x0020 != 0 <==> Mentions(filter, "res@colorDepth")
    ensures Bits(Some(filter)) & 0x0008 != 0 <==> Mentions(filter, "res@duration")
    ensures Bits(Some(filter)) & 0x2000 != 0 <==> Mentions(filter, "res@nrAudioChannels")
    ensures Bits(Some(filter)) & 0x4000 != 0 <==> Mentions(filter, "res@protection")
    ensures Bits(Some(filter)) & 0x0004 != 0 <==> Mentions(filter, "res@resolution")
    ensures Bits(Some(filter)) & 0x1000 != 0 <==> Mentions(filter, "res@sampleFrequency")
    ensures Bits(Some(filter)) & 0x0040 != 0 <==> Mentions(filter, "res@size")
    ensures Bits(Some(filter)) & 0x0080 != 0 <==>
      Mentions(filter, "@childCount") || Mentions(filter, "container@childCount")
    ensures Bits(Some(filter)) & 0x0100 != 0 <==>
      Mentions(filter, "@searchable") || Mentions(filter, "container@searchable")
  {
    hide FieldBits, Bits, Mentions, Opens;
    forall s: string | s != ""
      ensures Asks(FieldBits(s), 0x0001) <==> Opens(s, "dc:creator")
      ensures Asks(FieldBits(s), 0x0200) <==> Opens(s, "upnp:album")
      ensures Asks(FieldBits(s), 0x0400) <==> Opens(s, "upnp:genre")
      ensures Asks(FieldBits(s), 0x0002) <==> Opens(s, "res")
      ensures Asks(FieldBits(s), 0x0010) <==> Opens(s, "res@bitrate")
      ensures Asks(FieldBits(s), 0x0800) <==> Opens(s, "res@bitsPerSample")
      ensures Asks(FieldBits(s), 0x0020) <==> Opens(s, "res@colorDepth")
      ensures Asks(FieldBits(s), 0x0008) <==> Opens(s, "res@duration")
      ensures Asks(FieldBits(s), 0x2000) <==> Opens(s, "res@nrAudioChannels")
      ensures Asks(FieldBits(s), 0x4000) <==> Opens(s, "res@protection")
      ensures Asks(FieldBits(s), 0x0004) <==> Opens(s, "res@resolution")
      ensures Asks(FieldBits(s), 0x1000) <==> Opens(s, "res@sampleFrequency")
      ensures Asks(FieldBits(s), 0x0040) <==> Opens(s, "res@size")
      ensures Asks(FieldBits(s), 0x0080) <==> Opens(s, "@childCount") || Opens(s, "container@childCount")
      ensures Asks(FieldBits(s), 0x0100) <==> Opens(s, "@searchable") || Opens(s, "container@searchable")
    {
      FieldBitsMean(s);
    }
    MentionsMeans(filter, 0x0001, "dc:creator");
    MentionsMeans(filter, 0x0200, "upnp:album");
    MentionsMeans(filter, 0x0400, "upnp:genre");
    MentionsMeans(filter, 0x0002, "res");
    MentionsMeans(filter, 0x0010, "res@bitrate");
    MentionsMeans(filter, 0x0800, "res@bitsPerSample");
    MentionsMeans(filter, 0x0020, "res@colorDepth");
    MentionsMeans(filter, 0x0008, "res@duration");
    MentionsMeans(filter, 0x2000, "res@nrAudioChannels");
    MentionsMeans(filter, 0x4000, "res@protection");
    MentionsMeans(filter, 0x0004, "res@resolution");
    MentionsMeans(filter, 0x1000, "res@sampleFrequency");
    MentionsMeans(filter, 0x0040, "res@size");
    MentionsEither(filter, 0x0080, "@childCount", "container@childCount");
    MentionsEither(filter, 0x0100, "@searchable", "container@searchable");
  }
}
