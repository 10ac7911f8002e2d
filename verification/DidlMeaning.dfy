/** The object that the DIDL-Lite text describes, as a reader of the text recovers it: every attribute and
    element by its name, numbers by the positions of their digits, metadata by unescaping. */
module DidlMeaning {
  import opened Options
  import opened Numbers
  import opened DidlSize
  import opened XmlReading
  import opened DidlReading
  import Filter = DidlFilter
  import PacketHeader
  import Sequences
  import Splitter
  import XmlEscape

  // ----- what a value says

  predicate TextTold(v: Option<string>, given: bool, s: string, e: bool) {
    if given then v.Some? && Recovers(v.value, s, e) else v.None?
  }

  ghost predicate NumberTold(v: Option<string>, given: bool, n: int) {
    if given then v.Some? && n >= 0 && DecimalOf(v.value, n) else v.None?
  }

  ghost predicate SignedTold(v: Option<string>, given: bool, n: int) {
    if !given then v.None?
    else
      && v.Some?
      && if n >= 0 then DecimalOf(v.value, n) else v.value != "" && v.value[0] == '-' && DecimalOf(v.value[1..], -n)
  }

  /** Width and height, in this order. */
  ghost predicate SidesTold(v: Option<string>, given: bool, x: int, y: int) {
    if !given then v.None?
    else
      && v.Some? && x >= 0 && y >= 0
      && exists a, b :: Splitter.Split(v.value, "x") == [a, b] && DecimalOf(a, x) && DecimalOf(b, y)
  }

  /** Hours, minutes and seconds; 60 hours and more come back without their multiples of 60 hours, and a
      duration of 0 is what the time buffer held. */
  ghost predicate TimeTold(v: Option<string>, given: bool, seconds: int, time: string) {
    if !given then v.None?
    else if seconds == 0 then v == Some(time)
    else
      && v.Some?
      && exists a, b, c, h: nat, m: nat, s: nat ::
           && Splitter.Split(v.value, ":") == [a, b, c] && DecimalOf(a, h) && DecimalOf(b, m) && DecimalOf(c, s)
           && m < 60 && s < 60 && 3600 * h + 60 * m + s == seconds % 216_000
  }

  /** The attributes of a resource: exactly those shown that it has, each with its value. */
  ghost predicate ResourceTold(tag: string, r: Resource, shown: bv32, e: bool, time: string) {
    && TextTold(ValueOf(tag, "protocolInfo"), true, r.protocolInfo, e)
    && NumberTold(ValueOf(tag, "bitrate"), r.bitrate >= 0 && Has(shown, Filter.Bitrate), r.bitrate / 8)
    && NumberTold(ValueOf(tag, "bitsPerSample"), r.bitsPerSample >= 0 && Has(shown, Filter.BitsPerSample),
                  r.bitsPerSample)
    && NumberTold(ValueOf(tag, "colorDepth"), r.colorDepth >= 0 && Has(shown, Filter.ColorDepth), r.colorDepth)
    && TimeTold(ValueOf(tag, "duration"), r.duration >= 0 && Has(shown, Filter.Duration), r.duration, time)
    && NumberTold(ValueOf(tag, "nrAudioChannels"), r.nrAudioChannels >= 0 && Has(shown, Filter.NrAudioChannels),
                  r.nrAudioChannels)
    && TextTold(ValueOf(tag, "protection"), r.protection.Some? && Has(shown, Filter.Protection),
                r.protection.GetOr(""), e)
    && SidesTold(ValueOf(tag, "resolution"), r.resolutionX >= 0 && r.resolutionY >= 0 && Has(shown, Filter.Resolution),
                 r.resolutionX, r.resolutionY)
    && NumberTold(ValueOf(tag, "sampleFrequency"), r.sampleFrequency >= 0 && Has(shown, Filter.SampleFrequency),
                  r.sampleFrequency)
    && NumberTold(ValueOf(tag, "size"), Has(shown, Filter.Size), r.size)
  }

  // ----- numbers and times

  lemma DecimalTells(n: int)
    ensures SignedTold(Some(Decimal(n)), true, n) && (n >= 0 ==> NumberTold(Some(Decimal(n)), true, n))
  {
    PrintedIsDecimal(if n < 0 then -n else n);
    hide DecimalOf, PrintNat;
    if n < 0 {
      assert ("-" + PrintNat(-n, 10))[1..] == PrintNat(-n, 10);
    }
  }

  lemma NoDigitIs(n: nat, c: char)
    requires c == 'x' || c == ':'
    ensures c !in PrintNat(n, 10)
  {
    PrintedDigits(n, 10);
    hide PrintNat;
  }

  lemma SplitOfTwo(a: string, b: string, c: char)
    requires c !in a && c !in b
    ensures Splitter.Split(a + [c] + b, [c]) == [a, b]
  {
    PacketHeader.SingleIsUnbordered(c);
    PacketHeader.FreeOfChar(a, c);
    PacketHeader.FreeOfChar(b, c);
    hide Splitter.Split, Splitter.Unbordered, Splitter.Free;
    Splitter.SplitNone(a, [c]);
    Splitter.SplitNone(b, [c]);
    Splitter.SplitAt(a, b, [c]);
    assert a + [c] + b == a + ([c] + b);
  }

  lemma SidesTell(x: nat, y: nat)
    ensures SidesTold(Some(Decimal(x) + "x" + Decimal(y)), true, x, y)
  {
    NoDigitIs(x, 'x');
    NoDigitIs(y, 'x');
    PrintedIsDecimal(x);
    PrintedIsDecimal(y);
    hide DecimalOf, PrintNat, Splitter.Split;
    SplitOfTwo(PrintNat(x, 10), PrintNat(y, 10), 'x');
  }

  lemma TwoDigitsTell(n: nat)
    requires n < 60
    ensures DecimalOf(TwoDigits(n), n) && ':' !in TwoDigits(n)
  {
    NoDigitIs(n, ':');
    PrintedIsDecimal(n);
    if n < 10 {
      var s := PrintNat(n, 10);
      assert s == [DigitChar(n)];
      CapitalDigit(n);
      var digits: seq<nat> := [0, n];
      assert digits[1..] == [n] && [n][1..] == [] && Power(10, 0) == 1 && Power(10, 1) == 10;
      assert Positional([n], 10) == n && Positional(digits, 10) == n;
      assert SpellsNumber("0" + s, digits, 10);
    }
    hide PrintNat, DecimalOf;
  }

  lemma TimeTells(seconds: int, time: string)
    requires seconds >= 0
    ensures TimeTold(Some(TimeString(seconds, time)), true, seconds, time)
  {
    if seconds > 0 {
      var h, m, s := seconds / 3600 % 60, seconds / 60 % 60, seconds % 60;
      TwoDigitsTell(h);
      TwoDigitsTell(m);
      TwoDigitsTell(s);
      ClockTime(seconds);
      hide DecimalOf, TwoDigits, Splitter.Split;
      SplitOfTimes(TwoDigits(h), TwoDigits(m), TwoDigits(s));
      assert Splitter.Split(TimeString(seconds, time), ":") == [TwoDigits(h), TwoDigits(m), TwoDigits(s)];
    }
  }

  lemma SixtyHours(seconds: nat, q: nat, r: nat)
    requires seconds == 216_000 * q + r && r < 216_000
    ensures seconds % 216_000 == r
  {
  }

  lemma ClockTime(seconds: nat)
    ensures 3600 * (seconds / 3600 % 60) + 60 * (seconds / 60 % 60) + seconds % 60 == seconds % 216_000
  {
    var h, m, s := seconds / 3600, seconds / 60, seconds % 60;
    assert m / 60 == h;
    assert seconds == 60 * m + s && m == 60 * h + m % 60;
    var days, hours := h / 60, h % 60;
    assert h == 60 * days + hours && hours < 60;
    var r := 3600 * hours + 60 * (m % 60) + s;
    SixtyHours(seconds, days, r);
  }

  lemma SplitOfTimes(a: string, b: string, c: string)
    requires ':' !in a && ':' !in b && ':' !in c
    ensures Splitter.Split(a + ":" + b + ":" + c, ":") == [a, b, c]
  {
    hide Splitter.Split, Splitter.Unbordered, Splitter.Free;
    PacketHeader.SingleIsUnbordered(':');
    PacketHeader.FreeOfChar(a, ':');
    Splitter.SplitNone(a, ":");
    SplitOfTwo(b, c, ':');
    Splitter.SplitAt(a, b + ":" + c, ":");
    Sequences.Assoc(a + ":", b, ":");
    Sequences.Assoc(a + ":", b + ":", c);
    Sequences.Assoc(a, ":", b + ":" + c);
    assert [a] + [b, c] == [a, b, c];
  }

  // ----- the attributes of a resource

  lemma NamesDiffer(a: Attribute, b: Attribute)
    requires Name(a) == Name(b)
    ensures a == b
  {
    assert |Name(a)| == |Name(b)| && Name(a)[0] == Name(b)[0] && Name(a)[1] == Name(b)[1];
  }

  lemma {:induction false} PairIsFirst(attributes: seq<Attribute>, a: Attribute, r: Resource, shown: bv32, e: bool,
                                       time: string)
    ensures First(Pairs(attributes, r, shown, e, time), Name(a)) ==
      if a in attributes && Printed(a, r) && Has(shown, Flag(a)) then Some(PlainValue(a, r, e, time)) else None
  {
    hide Name, Printed, Has, Flag, PlainValue;
    if attributes != [] {
      var b, rest := attributes[0], attributes[1..];
      PairIsFirst(rest, a, r, shown, e, time);
      var ps := Pairs(rest, r, shown, e, time);
      if Printed(b, r) && Has(shown, Flag(b)) {
        assert ([Pair(Name(b), PlainValue(b, r, e, time))] + ps)[1..] == ps;
        if Name(b) == Name(a) {
          NamesDiffer(b, a);
        }
      } else {
        assert Pairs(attributes, r, shown, e, time) == ps;
      }
    }
  }

  lemma AttributeIsRead(a: Attribute, r: Resource, shown: bv32, e: bool, time: string)
    requires Timely(r, time) && CleanResource(r, e)
    ensures ValueOf(Tag("res", ResPairs(r, shown, e, time)), Name(a)) ==
      if Printed(a, r) && Has(shown, Flag(a)) then Some(PlainValue(a, r, e, time)) else None
  {
    hide Name, Printed, Has, Flag, PlainValue, Timely, Pairs, Tag, Fine, ValueOf, Meta;
    var ps := ResPairs(r, shown, e, time);
    ResIsReadable(r, shown, e, time);
    NameIsUnmarked(a);
    assert '"' !in "res";
    AttributeOfTag("res", ps, Name(a));
    PairIsFirst(Attributes, a, r, shown, e, time);
    assert ps[1..] == Pairs(Attributes, r, shown, e, time);
    NotProtocolInfo(a);
    assert Attributes[Position(a)] == a;
  }

  lemma NotProtocolInfo(a: Attribute)
    ensures Name(a) != "protocolInfo"
  {
    assert |Name(a)| == 12 ==> false;
  }

  lemma ProtocolInfoIsRead(r: Resource, shown: bv32, e: bool, time: string)
    requires Timely(r, time) && CleanResource(r, e)
    ensures ValueOf(Tag("res", ResPairs(r, shown, e, time)), "protocolInfo") == Some(Meta(r.protocolInfo, e))
  {
    hide Timely, Pairs, Tag, Fine, ValueOf, Meta;
    ResIsReadable(r, shown, e, time);
    assert '"' !in "res";
    ProtocolInfo();
    AttributeOfTag("res", ResPairs(r, shown, e, time), "protocolInfo");
  }

  lemma NumberIsRead(a: Attribute, r: Resource, shown: bv32, e: bool, time: string, n: int)
    requires Timely(r, time) && CleanResource(r, e)
    requires Printed(a, r) ==> n >= 0 && PlainValue(a, r, e, time) == Decimal(n)
    ensures
      NumberTold(ValueOf(Tag("res", ResPairs(r, shown, e, time)), Name(a)), Printed(a, r) && Has(shown, Flag(a)), n)
  {
    hide Name, Printed, Has, Flag, PlainValue, Timely, Tag, ValueOf, ResPairs, DecimalOf, Decimal;
    AttributeIsRead(a, r, shown, e, time);
    DecimalTells(n);
  }

  lemma OthersAreRead(r: Resource, shown: bv32, e: bool, time: string)
    requires Timely(r, time) && CleanResource(r, e)
    ensures var tag := Tag("res", ResPairs(r, shown, e, time));
      && TimeTold(ValueOf(tag, "duration"), r.duration >= 0 && Has(shown, Flag(Duration)), r.duration, time)
      && TextTold(ValueOf(tag, "protection"), r.protection.Some? && Has(shown, Flag(Protection)),
                  r.protection.GetOr(""), e)
      && SidesTold(ValueOf(tag, "resolution"), r.resolutionX >= 0 && r.resolutionY >= 0 && Has(shown, Flag(Resolution)),
                   r.resolutionX, r.resolutionY)
  {
    hide Has, Flag, Timely, Tag, ValueOf, ResPairs, TimeTold, Recovers, SidesTold, Decimal, TimeString, Meta;
    AttributeIsRead(Duration, r, shown, e, time);
    AttributeIsRead(Protection, r, shown, e, time);
    AttributeIsRead(Resolution, r, shown, e, time);
    MetaRecovers(r.protection.GetOr(""), e);
    NothingTold(r, time);
    if r.duration >= 0 {
      TimeTells(r.duration, time);
    }
    if r.resolutionX >= 0 && r.resolutionY >= 0 {
      SidesTell(r.resolutionX, r.resolutionY);
    }
  }

  lemma NothingTold(r: Resource, time: string)
    ensures TimeTold(None, false, r.duration, time) && SidesTold(None, false, r.resolutionX, r.resolutionY)
  {
  }

  lemma NumbersAreRead(r: Resource, shown: bv32, e: bool, time: string)
    requires Timely(r, time) && CleanResource(r, e)
    ensures var tag := Tag("res", ResPairs(r, shown, e, time));
      && NumberTold(ValueOf(tag, "bitrate"), r.bitrate >= 0 && Has(shown, Flag(Bitrate)), r.bitrate / 8)
      && NumberTold(ValueOf(tag, "bitsPerSample"), r.bitsPerSample >= 0 && Has(shown, Flag(BitsPerSample)),
                    r.bitsPerSample)
      && NumberTold(ValueOf(tag, "colorDepth"), r.colorDepth >= 0 && Has(shown, Flag(ColorDepth)), r.colorDepth)
      && NumberTold(ValueOf(tag, "nrAudioChannels"), r.nrAudioChannels >= 0 && Has(shown, Flag(NrAudioChannels)),
                    r.nrAudioChannels)
      && NumberTold(ValueOf(tag, "sampleFrequency"), r.sampleFrequency >= 0 && Has(shown, Flag(SampleFrequency)),
                    r.sampleFrequency)
      && NumberTold(ValueOf(tag, "size"), Has(shown, Flag(Size)), r.size)
  {
    hide Has, Flag, Timely, CleanResource, Tag, ValueOf, ResPairs, NumberTold, Decimal, Meta;
    NumberIsRead(Bitrate, r, shown, e, time, r.bitrate / 8);
    NumberIsRead(BitsPerSample, r, shown, e, time, r.bitsPerSample);
    NumberIsRead(ColorDepth, r, shown, e, time, r.colorDepth);
    NumberIsRead(NrAudioChannels, r, shown, e, time, r.nrAudioChannels);
    NumberIsRead(SampleFrequency, r, shown, e, time, r.sampleFrequency);
    NumberIsRead(Size, r, shown, e, time, r.size);
  }

  lemma Flags()
    ensures Flag(Bitrate) == Filter.Bitrate && Flag(BitsPerSample) == Filter.BitsPerSample
    ensures Flag(ColorDepth) == Filter.ColorDepth && Flag(Duration) == Filter.Duration
    ensures Flag(NrAudioChannels) == Filter.NrAudioChannels && Flag(Protection) == Filter.Protection
    ensures Flag(Resolution) == Filter.Resolution && Flag(SampleFrequency) == Filter.SampleFrequency
    ensures Flag(Size) == Filter.Size
  {
  }

  /** The attributes of a resource are read off its tag. */
  lemma ResourceIsRead(r: Resource, shown: bv32, e: bool, time: string)
    requires Timely(r, time) && CleanResource(r, e)
    ensures ResourceTold(Tag("res", ResPairs(r, shown, e, time)), r, shown, e, time)
  {
    hide Has, Flag, Timely, CleanResource, Tag, ValueOf, ResPairs, NumberTold, TimeTold, Recovers, SidesTold, Meta;
    Flags();
    ProtocolInfoIsRead(r, shown, e, time);
    MetaRecovers(r.protocolInfo, e);
    OthersAreRead(r, shown, e, time);
    NumbersAreRead(r, shown, e, time);
  }

  // ----- the object

  /** The class of a code, in the words of the text. */
  predicate Called(code: nat, names: seq<string>)
    requires names != []
  {
    ClassOf(code).Named() && ClassText(ClassOf(code)) == Splitter.Join(names, ".")
  }

  lemma JoinOfNames(names: seq<string>)
    requires names != []
    ensures |names| == 1 ==> Splitter.Join(names, ".") == names[0]
    ensures |names| == 2 ==> Splitter.Join(names, ".") == names[0] + ("." + names[1])
    ensures |names| == 3 ==> Splitter.Join(names, ".") == names[0] + ("." + names[1]) + ("." + names[2])
  {
    if |names| == 3 {
      var rest := names[1..];
      assert rest[0] == names[1] && rest[1..] == [names[2]];
      assert Splitter.Join(rest, ".") == names[1] + "." + names[2];
    }
  }

  lemma Divided(code: nat, q: nat, m: nat, k: nat)
    requires code == 0x100_0000 * q + 0x1_0000 * m + k && m < 256 && k < 4
    ensures code / 0x100_0000 == q && code / 0x1_0000 == 256 * q + m && code / 0x100 == 256 * (256 * q + m)
  {
  }

  lemma CodeIs(code: nat, q: nat, m: nat, k: nat)
    requires code == 0x100_0000 * q + 0x1_0000 * m + k && q < 256 && m < 256 && k < 4
    ensures ClassOf(code) == Class(k, q, m, 0)
  {
    Divided(code, q, m, k);
    Remainders(0x40_0000 * q + 0x4000 * m, q, m, k);
  }

  lemma Remainders(p: nat, q: nat, m: nat, k: nat)
    requires q < 256 && m < 256 && k < 4
    ensures (4 * p + k) % 4 == k && q % 256 == q && (256 * q + m) % 256 == m && 256 * (256 * q + m) % 256 == 0
  {
  }

  lemma ClassIs(code: nat, c: Class, names: seq<string>)
    requires code == 0x100_0000 * c.major + 0x1_0000 * c.minor1 + c.kind && c.kind < 4 && c.minor2 == 0 && c.Named()
    requires 1 <= |names| <= 3 && names[0] == ObjectTypes[c.kind]
    requires (|names| > 1 <==> c.major > 0) && (|names| > 1 ==> names[1] == MajorTypes[c.major])
    requires (|names| > 2 <==> c.minor1 > 0) && (|names| > 2 ==> names[2] == Minor1Types[c.minor1])
    ensures Called(code, names)
  {
    assert c.major < 256 && c.minor1 < 256;
    hide ClassOf, ObjectTypes, MajorTypes, Minor1Types;
    CodeIs(code, c.major, c.minor1, c.kind);
    JoinOfNames(names);
    hide Splitter.Join;
  }

  /** The codes of the normative classes, and their names. */
  lemma TopClasses()
    ensures Called(0x0000_0001, ["object.item"])
    ensures Called(0x0000_0002, ["object.container"])
  {
    hide Splitter.Join, ClassText, ClassOf;
    ClassIs(0x0000_0001, Class(1, 0, 0, 0), ["object.item"]);
    ClassIs(0x0000_0002, Class(2, 0, 0, 0), ["object.container"]);
  }

  lemma MediaClasses()
    ensures Called(0x0100_0001, ["object.item", "imageItem"])
    ensures Called(0x0200_0001, ["object.item", "audioItem"])
  {
    hide Splitter.Join, ClassText, ClassOf;
    ClassIs(0x0100_0001, Class(1, 1, 0, 0), ["object.item", "imageItem"]);
    ClassIs(0x0200_0001, Class(1, 2, 0, 0), ["object.item", "audioItem"]);
  }

  lemma ListClasses()
    ensures Called(0x0300_0001, ["object.item", "videoItem"])
    ensures Called(0x0400_0001, ["object.item", "playlistItem"])
  {
    hide Splitter.Join, ClassText, ClassOf;
    ClassIs(0x0300_0001, Class(1, 3, 0, 0), ["object.item", "videoItem"]);
    ClassIs(0x0400_0001, Class(1, 4, 0, 0), ["object.item", "playlistItem"]);
  }

  lemma TextClasses()
    ensures Called(0x0500_0001, ["object.item", "textItem"])
    ensures Called(0x0600_0002, ["object.container", "person"])
  {
    hide Splitter.Join, ClassText, ClassOf;
    ClassIs(0x0500_0001, Class(1, 5, 0, 0), ["object.item", "textItem"]);
    ClassIs(0x0600_0002, Class(2, 6, 0, 0), ["object.container", "person"]);
  }

  lemma CollectionClasses()
    ensures Called(0x0700_0002, ["object.container", "playlistContainer"])
    ensures Called(0x0800_0002, ["object.container", "album"])
  {
    hide Splitter.Join, ClassText, ClassOf;
    ClassIs(0x0700_0002, Class(2, 7, 0, 0), ["object.container", "playlistContainer"]);
    ClassIs(0x0800_0002, Class(2, 8, 0, 0), ["object.container", "album"]);
  }

  lemma KindClasses()
    ensures Called(0x0900_0002, ["object.container", "genre"])
  {
    hide Splitter.Join, ClassText, ClassOf;
    ClassIs(0x0900_0002, Class(2, 9, 0, 0), ["object.container", "genre"]);
  }

  lemma StorageClasses()
    ensures Called(0x0A00_0002, ["object.container", "storageSystem"])
    ensures Called(0x0B00_0002, ["object.container", "storageVolume"])
  {
    hide Splitter.Join, ClassText, ClassOf;
    ClassIs(0x0A00_0002, Class(2, 10, 0, 0), ["object.container", "storageSystem"]);
    ClassIs(0x0B00_0002, Class(2, 11, 0, 0), ["object.container", "storageVolume"]);
  }

  lemma FolderClasses()
    ensures Called(0x0C00_0002, ["object.container", "storageFolder"])
    ensures Called(0x0D00_0002, ["object.container", "epgContainer"])
  {
    hide Splitter.Join, ClassText, ClassOf;
    ClassIs(0x0C00_0002, Class(2, 12, 0, 0), ["object.container", "storageFolder"]);
    ClassIs(0x0D00_0002, Class(2, 13, 0, 0), ["object.container", "epgContainer"]);
  }

  lemma PhotoClasses()
    ensures Called(0x0101_0001, ["object.item", "imageItem", "photo"])
    ensures Called(0x0202_0001, ["object.item", "audioItem", "musicTrack"])
  {
    hide Splitter.Join, ClassText, ClassOf;
    ClassIs(0x0101_0001, Class(1, 1, 1, 0), ["object.item", "imageItem", "photo"]);
    ClassIs(0x0202_0001, Class(1, 2, 2, 0), ["object.item", "audioItem", "musicTrack"]);
  }

  lemma AudioClasses()
    ensures Called(0x0203_0001, ["object.item", "audioItem", "audioBroadcast"])
    ensures Called(0x0204_0001, ["object.item", "audioItem", "audioBook"])
  {
    hide Splitter.Join, ClassText, ClassOf;
    ClassIs(0x0203_0001, Class(1, 2, 3, 0), ["object.item", "audioItem", "audioBroadcast"]);
    ClassIs(0x0204_0001, Class(1, 2, 4, 0), ["object.item", "audioItem", "audioBook"]);
  }

  lemma VideoClasses()
    ensures Called(0x0305_0001, ["object.item", "videoItem", "movie"])
    ensures Called(0x0306_0001, ["object.item", "videoItem", "videoBroadcast"])
    ensures Called(0x0307_0001, ["object.item", "videoItem", "musicVideClip"])
  {
    hide Splitter.Join, ClassText, ClassOf;
    ClassIs(0x0305_0001, Class(1, 3, 5, 0), ["object.item", "videoItem", "movie"]);
    ClassIs(0x0306_0001, Class(1, 3, 6, 0), ["object.item", "videoItem", "videoBroadcast"]);
    ClassIs(0x0307_0001, Class(1, 3, 7, 0), ["object.item", "videoItem", "musicVideClip"]);
  }

  lemma ProgramClasses()
    ensures Called(0x0E0D_0001, ["object.item", "epgItem", "videoProgram"])
    ensures Called(0x0E0E_0001, ["object.item", "epgItem", "audioProgram"])
  {
    hide Splitter.Join, ClassText, ClassOf;
    ClassIs(0x0E0D_0001, Class(1, 14, 13, 0), ["object.item", "epgItem", "videoProgram"]);
    ClassIs(0x0E0E_0001, Class(1, 14, 14, 0), ["object.item", "epgItem", "audioProgram"]);
  }

  lemma ArtistClasses()
    ensures Called(0x0608_0002, ["object.container", "person", "musicArtist"])
    ensures Called(0x0809_0002, ["object.container", "album", "musicAlbum"])
  {
    hide Splitter.Join, ClassText, ClassOf;
    ClassIs(0x0608_0002, Class(2, 6, 8, 0), ["object.container", "person", "musicArtist"]);
    ClassIs(0x0809_0002, Class(2, 8, 9, 0), ["object.container", "album", "musicAlbum"]);
  }

  lemma GenreClasses()
    ensures Called(0x080A_0002, ["object.container", "album", "photoAlbum"])
    ensures Called(0x090B_0002, ["object.container", "genre", "musicGenre"])
    ensures Called(0x090C_0002, ["object.container", "genre", "movieGenre"])
  {
    hide Splitter.Join, ClassText, ClassOf;
    ClassIs(0x080A_0002, Class(2, 8, 10, 0), ["object.container", "album", "photoAlbum"]);
    ClassIs(0x090B_0002, Class(2, 9, 11, 0), ["object.container", "genre", "musicGenre"]);
    ClassIs(0x090C_0002, Class(2, 9, 12, 0), ["object.container", "genre", "movieGenre"]);
  }

  lemma ElementContent(tag: string, name: string, value: string, asked: string)
    requires asked != "/" + name
    ensures Content(ElementNodes(tag, name, value), asked) == if tag == asked then Some(value) else None
  {
    var ns := ElementNodes(tag, name, value);
    assert ns[1..] == [Node("/" + name, "\r\n")] && ns[1..][1..] == [];
    assert Content(ns[1..], asked) == None by {
      NoContent(ns[1..], asked);
    }
  }

  lemma FieldContent(name: string, s: Option<string>, shown: bv32, flag: bv32, e: bool, asked: string)
    requires asked != "/" + name
    ensures Content(FieldNodes(name, s, shown, flag, e), asked) ==
      if name == asked && s.Some? && Has(shown, flag) then Some(Meta(s.value, e)) else None
  {
    hide Has, Meta, ElementNodes;
    if s.Some? {
      ElementContent(name, name, Meta(s.value, e), asked);
    }
    NoContent([], asked);
  }

  predicate IsResource(n: Node) {
    "res " <= n.tag
  }

  /** Tags are told apart by their first characters. */
  lemma {:induction false} TagStarts(name: string, ps: seq<Pair>)
    ensures name <= Tag(name, ps) && (ps != [] ==> name + " " <= Tag(name, ps))
  {
    if ps != [] {
      TagUnfolds(name, ps);
      hide Tag;
    }
  }

  predicate OfResources(ns: seq<Node>) {
    forall k :: 0 <= k < |ns| ==> ns[k].tag != "" && (ns[k].tag[0] == 'r' || ns[k].tag[0] == '/')
  }

  lemma OfBoth(a: seq<Node>, b: seq<Node>)
    requires OfResources(a) && OfResources(b)
    ensures OfResources(a + b)
  {
  }

  lemma {:induction false} ResourceTags(rs: seq<Resource>, shown: bv32, e: bool, time: string)
    ensures OfResources(ResourcesNodes(rs, shown, e, time))
  {
    hide OfResources, ResNodes, TimeAfter;
    if rs == [] {
      assert OfResources([]) by { NoneOfResources(); }
    } else {
      var init, last := rs[..|rs| - 1], rs[|rs| - 1];
      ResourceTags(init, shown, e, time);
      OneResourceTag(last, shown, e, TimeAfter(init, shown, time));
      OfBoth(ResourcesNodes(init, shown, e, time), ResNodes(last, shown, e, TimeAfter(init, shown, time)));
    }
  }

  lemma NoneOfResources()
    ensures OfResources([])
  {
  }

  lemma OneResourceTag(r: Resource, shown: bv32, e: bool, time: string)
    ensures OfResources(ResNodes(r, shown, e, time)) && "res " <= ResNodes(r, shown, e, time)[0].tag
  {
    hide Tag, ResPairs, Meta;
    TagStarts("res", ResPairs(r, shown, e, time));
    SomePairs(r, shown, e, time);
    var tag := Tag("res", ResPairs(r, shown, e, time));
    assert "res" + " " == "res " && "res "[0] == 'r' == tag[0];
    assert "/" + "res" == "/res" && "/res"[0] == '/';
  }

  lemma SomePairs(r: Resource, shown: bv32, e: bool, time: string)
    ensures ResPairs(r, shown, e, time) != []
  {
  }

  lemma MiddleContent(o: MediaObject, shown: bv32, e: bool, time: string, asked: string)
    requires asked != "" && asked[0] != 'r' && asked[0] != '/'
    ensures Content(MiddleNodes(o, shown, e, time), asked) == None
  {
    ResourceTags(o.res, shown, e, time);
    NoneOfResources();
    hide Has, ResourcesNodes;
    NoContent(MiddleNodes(o, shown, e, time), asked);
  }

  lemma StartTag(o: MediaObject, filter: bv32, e: bool, asked: string)
    requires asked != "" && asked[0] != '/'
    requires ' ' !in asked
    ensures Tag(Kind(o), StartPairs(o, filter, e)) != asked
    ensures !IsResource(Node(Tag(Kind(o), StartPairs(o, filter, e)), "\r\n"))
  {
    hide Tag, IsContainer, Meta, MorePairs;
    TagStarts(Kind(o), StartPairs(o, filter, e));
    var tag, k := Tag(Kind(o), StartPairs(o, filter, e)), |Kind(o)|;
    assert (Kind(o) + " ")[k] == ' ' == tag[k];
    assert tag[k] in tag;
    assert tag[0] == Kind(o)[0] != 'r';
  }

  lemma ContentOf(o: MediaObject, filter: bv32, shown: bv32, e: bool, time: string, asked: string)
    requires ClassOf(o.mediaClass).Named()
    requires asked != "" && asked[0] != 'r' && asked[0] != '/' && ' ' !in asked
    ensures Content(ObjectNodes(o, filter, shown, e, time), asked) ==
      if asked == "dc:title" then Some(Meta(o.title.GetOr(""), e))
      else if asked == "upnp:class" then Some(ClassText(ClassOf(o.mediaClass)))
      else Content(TailNodes(o, shown, e), asked)
  {
    hide Class.Named, ClassOf, Has, Tag, Kind, StartPairs, ElementNodes, MiddleNodes, TailNodes, Meta, ClassText;
    hide Content;
    var start := [Node(Tag(Kind(o), StartPairs(o, filter, e)), "\r\n")];
    var title := ElementNodes("dc:title", "dc:title", Meta(o.title.GetOr(""), e));
    var name := ElementNodes("upnp:class", "upnp:class", ClassText(ClassOf(o.mediaClass)));
    StartTag(o, filter, e, asked);
    NoContent(start, asked);
    ElementContent("dc:title", "dc:title", Meta(o.title.GetOr(""), e), asked);
    ElementContent("upnp:class", "upnp:class", ClassText(ClassOf(o.mediaClass)), asked);
    MiddleContent(o, shown, e, time, asked);
    var head, end := HeadNodes(o, filter, e), [Node("/" + Kind(o), "")];
    NoContent(end, asked);
    ContentJoin(start, title, asked);
    ContentJoin(start + title, name, asked);
    ContentJoin(head, MiddleNodes(o, shown, e, time), asked);
    ContentJoin(head + MiddleNodes(o, shown, e, time), TailNodes(o, shown, e), asked);
    ContentJoin(head + MiddleNodes(o, shown, e, time) + TailNodes(o, shown, e), end, asked);
  }

  lemma TailContent(o: MediaObject, shown: bv32, e: bool, asked: string)
    requires asked != "" && asked[0] != '/'
    ensures Content(TailNodes(o, shown, e), asked) ==
      if asked == "dc:creator" && o.creator.Some? && Has(shown, Filter.Creator) then Some(Meta(o.creator.value, e))
      else if asked == "upnp:genre" && o.genre.Some? && Has(shown, Filter.Genre) then Some(Meta(o.genre.value, e))
      else if asked == "upnp:album" && o.album.Some? && Has(shown, Filter.Album) then Some(Meta(o.album.value, e))
      else None
  {
    hide Has, Meta, FieldNodes, Content;
    FieldContent("dc:creator", o.creator, shown, Filter.Creator, e, asked);
    FieldContent("upnp:genre", o.genre, shown, Filter.Genre, e, asked);
    FieldContent("upnp:album", o.album, shown, Filter.Album, e, asked);
    var a := FieldNodes("dc:creator", o.creator, shown, Filter.Creator, e);
    var b := FieldNodes("upnp:genre", o.genre, shown, Filter.Genre, e);
    ContentJoin(a, b, asked);
    ContentJoin(a + b, FieldNodes("upnp:album", o.album, shown, Filter.Album, e), asked);
  }

  // ----- the resources of the object

  function ResourceNodes(ns: seq<Node>): seq<Node> {
    if ns == [] then [] else (if IsResource(ns[0]) then [ns[0]] else []) + ResourceNodes(ns[1..])
  }

  lemma {:induction false} SelectJoin(a: seq<Node>, b: seq<Node>)
    ensures ResourceNodes(a + b) == ResourceNodes(a) + ResourceNodes(b)
  {
    hide IsResource;
    if a == [] {
      assert a + b == b;
    } else {
      assert (a + b)[0] == a[0] && (a + b)[1..] == a[1..] + b;
      SelectJoin(a[1..], b);
      Sequences.Assoc(if IsResource(a[0]) then [a[0]] else [], ResourceNodes(a[1..]), ResourceNodes(b));
    }
  }

  lemma {:induction false} SelectNone(ns: seq<Node>)
    requires forall k :: 0 <= k < |ns| ==> !IsResource(ns[k])
    ensures ResourceNodes(ns) == []
  {
    hide IsResource;
    if ns != [] {
      SelectNone(ns[1..]);
    }
  }

  lemma OneIsSelected(r: Resource, shown: bv32, e: bool, time: string)
    ensures ResourceNodes(ResNodes(r, shown, e, time))
      == [Node(Tag("res", ResPairs(r, shown, e, time)), Meta(r.value.GetOr(""), e))]
  {
    hide Tag, ResPairs, Meta;
    OneResourceTag(r, shown, e, time);
    var ns := ResNodes(r, shown, e, time);
    assert "/" + "res" == "/res" && !("res " <= "/res");
    assert ns[1..] == [Node("/res", "\r\n")] && ns[1..][1..] == [];
    assert ResourceNodes([]) == [];
    assert ResourceNodes(ns[1..]) == [];
  }

  lemma {:induction false} AllAreSelected(rs: seq<Resource>, shown: bv32, e: bool, time: string)
    requires AllTimely(rs, time) && forall k :: 0 <= k < |rs| ==> CleanResource(rs[k], e)
    ensures var ns := ResourceNodes(ResourcesNodes(rs, shown, e, time));
      && |ns| == |rs|
      && forall k :: 0 <= k < |rs| ==>
        && ns[k].content == Meta(rs[k].value.GetOr(""), e)
        && ResourceTold(ns[k].tag, rs[k], shown, e, TimeAfter(rs[..k], shown, time))
  {
    hide AllTimely, Timely, CleanResource, TimeAfter, ResNodes, ResourceTold, Meta, Tag, ResPairs;
    if rs == [] {
      SelectNone([]);
    } else {
      var init, last := rs[..|rs| - 1], rs[|rs| - 1];
      LastIsTimely(rs, shown, time);
      AllAreSelected(init, shown, e, time);
      var before := TimeAfter(init, shown, time);
      ResourceIsRead(last, shown, e, before);
      OneIsSelected(last, shown, e, before);
      SelectJoin(ResourcesNodes(init, shown, e, time), ResNodes(last, shown, e, before));
      hide ResourceNodes;
      assert forall k :: 0 <= k < |init| ==> init[..k] == rs[..k];
    }
  }

  lemma HeadHasNone(o: MediaObject, filter: bv32, e: bool)
    requires ClassOf(o.mediaClass).Named()
    ensures ResourceNodes(HeadNodes(o, filter, e)) == []
  {
    hide Class.Named, ClassOf, Tag, StartPairs, Meta, ClassText, Kind;
    StartTag(o, filter, e, "x");
    var ns := HeadNodes(o, filter, e);
    forall k | 0 < k < |ns| ensures !IsResource(ns[k]) {
      assert ns[k].tag in ["dc:title", "/" + "dc:title", "upnp:class", "/" + "upnp:class"];
      NotResource(ns[k]);
    }
    SelectNone(ns);
  }

  lemma NotResource(n: Node)
    requires n.tag != "" && n.tag[0] != 'r'
    ensures !IsResource(n)
  {
    assert "res "[0] == 'r';
  }

  lemma FieldHasNone(name: string, s: Option<string>, shown: bv32, flag: bv32, e: bool)
    requires name != "" && name[0] != 'r'
    ensures ResourceNodes(FieldNodes(name, s, shown, flag, e)) == []
  {
    hide Meta, Has;
    var ns := FieldNodes(name, s, shown, flag, e);
    forall k | 0 <= k < |ns| ensures !IsResource(ns[k]) {
      assert k == 1 ==> ns[k].tag == "/" + name;
      NotResource(ns[k]);
    }
    SelectNone(ns);
  }

  lemma TailHasNone(o: MediaObject, shown: bv32, e: bool)
    ensures ResourceNodes(TailNodes(o, shown, e)) == [] && ResourceNodes([Node("/" + Kind(o), "")]) == []
  {
    hide FieldNodes, Has, Kind;
    FieldHasNone("dc:creator", o.creator, shown, Filter.Creator, e);
    FieldHasNone("upnp:genre", o.genre, shown, Filter.Genre, e);
    FieldHasNone("upnp:album", o.album, shown, Filter.Album, e);
    var a := FieldNodes("dc:creator", o.creator, shown, Filter.Creator, e);
    var b := FieldNodes("upnp:genre", o.genre, shown, Filter.Genre, e);
    SelectJoin(a, b);
    SelectJoin(a + b, FieldNodes("upnp:album", o.album, shown, Filter.Album, e));
    NotResource(Node("/" + Kind(o), ""));
    SelectNone([Node("/" + Kind(o), "")]);
  }

  lemma SelectedOf(o: MediaObject, filter: bv32, shown: bv32, e: bool, time: string)
    requires ClassOf(o.mediaClass).Named()
    ensures ResourceNodes(ObjectNodes(o, filter, shown, e, time)) == ResourceNodes(MiddleNodes(o, shown, e, time))
  {
    hide Class.Named, ClassOf, HeadNodes, MiddleNodes, TailNodes, Kind, ResourceNodes;
    HeadHasNone(o, filter, e);
    TailHasNone(o, shown, e);
    var head, middle := HeadNodes(o, filter, e), MiddleNodes(o, shown, e, time);
    var tail, end := TailNodes(o, shown, e), [Node("/" + Kind(o), "")];
    SelectJoin(head, middle);
    SelectJoin(head + middle, tail);
    SelectJoin(head + middle + tail, end);
  }

  // ----- the start tag

  lemma {:induction false} FirstJoin(a: seq<Pair>, b: seq<Pair>, name: string)
    ensures First(a + b, name) == if First(a, name).Some? then First(a, name) else First(b, name)
  {
    if a == [] {
      assert a + b == b;
    } else {
      assert (a + b)[0] == a[0] && (a + b)[1..] == a[1..] + b;
      FirstJoin(a[1..], b, name);
    }
  }

  lemma FirstOfOne(p: Pair, name: string)
    ensures First([p], name) == if p.name == name then Some(p.value) else None
    ensures First([], name) == None
  {
    assert [p][1..] == [];
  }

  lemma MoreIsFirst(o: MediaObject, filter: bv32, e: bool, name: string)
    ensures First(MorePairs(o, filter, e), name) ==
      if IsContainer(o.mediaClass) then
        if name == "searchable" && Has(filter, Filter.Searchable) then Some(Digit(o.searchable))
        else if name == "childCount" && Has(filter, Filter.ChildCount) then Some(Decimal(o.childCount))
        else None
      else if name == "refID" && !Empty(o.refID) then Some(Meta(o.refID.GetOr(""), e)) else None
  {
    hide IsContainer, Has, Decimal, Digit, Meta, First;
    var searchable, childCount := Pair("searchable", Digit(o.searchable)), Pair("childCount", Decimal(o.childCount));
    FirstOfOne(searchable, name);
    FirstOfOne(childCount, name);
    FirstOfOne(Pair("refID", Meta(o.refID.GetOr(""), e)), name);
    FirstJoin(if Has(filter, Filter.Searchable) then [searchable] else [],
              if Has(filter, Filter.ChildCount) then [childCount] else [], name);
  }

  lemma StartIsFirst(o: MediaObject, filter: bv32, e: bool, name: string)
    ensures First(StartPairs(o, filter, e), name) ==
      if name == "id" then Some(Meta(o.id.GetOr(""), e))
      else if name == "parentID" then Some(Meta(o.parentID.GetOr(""), e))
      else if name == "restricted" then Some(Digit(o.restricted))
      else First(MorePairs(o, filter, e), name)
  {
    hide Digit, Meta, First, MorePairs;
    var id, parent := Pair("id", Meta(o.id.GetOr(""), e)), Pair("parentID", Meta(o.parentID.GetOr(""), e));
    var restricted, more := Pair("restricted", Digit(o.restricted)), MorePairs(o, filter, e);
    FirstOfOne(id, name);
    FirstOfOne(parent, name);
    FirstOfOne(restricted, name);
    FirstJoin([restricted], more, name);
    FirstJoin([parent], [restricted] + more, name);
    FirstJoin([id], [parent] + ([restricted] + more), name);
  }

  /** The attributes of the item or container. */
  ghost predicate StartTold(tag: string, o: MediaObject, filter: bv32, e: bool) {
    && (if IsContainer(o.mediaClass) then "container " <= tag else "item " <= tag)
    && TextTold(ValueOf(tag, "id"), true, o.id.GetOr(""), e)
    && TextTold(ValueOf(tag, "parentID"), true, o.parentID.GetOr(""), e)
    && ValueOf(tag, "restricted") == Some(if o.restricted then "1" else "0")
    && TextTold(ValueOf(tag, "refID"), !IsContainer(o.mediaClass) && !Empty(o.refID), o.refID.GetOr(""), e)
    && ValueOf(tag, "searchable") ==
       (if !IsContainer(o.mediaClass) || !Has(filter, Filter.Searchable) then None
        else Some(if o.searchable then "1" else "0"))
    && SignedTold(ValueOf(tag, "childCount"), IsContainer(o.mediaClass) && Has(filter, Filter.ChildCount), o.childCount)
  }

  lemma StartValue(o: MediaObject, filter: bv32, e: bool, name: string)
    requires ClassOf(o.mediaClass).Named() && CleanObject(o, e) && ' ' !in name
    ensures ValueOf(Tag(Kind(o), StartPairs(o, filter, e)), name) == First(StartPairs(o, filter, e), name)
  {
    hide Class.Named, ClassOf, CleanObject, StartPairs, Tag, ValueOf, First, Fine, HeadNodes;
    HeadIsReadable(o, filter, e);
    assert '"' !in Kind(o);
    AttributeOfTag(Kind(o), StartPairs(o, filter, e), name);
  }

  lemma StartIsRead(o: MediaObject, filter: bv32, e: bool)
    requires ClassOf(o.mediaClass).Named() && CleanObject(o, e)
    ensures StartTold(Tag(Kind(o), StartPairs(o, filter, e)), o, filter, e)
  {
    hide Class.Named, ClassOf, CleanObject, StartPairs, Tag, ValueOf, First, IsContainer, Meta, Recovers, Has, Lettered;
    hide Decimal, SignedTold, Kind;
    StartNamesAreWords();
    KindStarts(o, filter, e);
    NoSign(o.childCount);
    StartValues(o, filter, e, "id");
    StartValues(o, filter, e, "parentID");
    StartValues(o, filter, e, "restricted");
    StartValues(o, filter, e, "refID");
    StartValues(o, filter, e, "searchable");
    StartValues(o, filter, e, "childCount");
    MetaRecovers(o.id.GetOr(""), e);
    MetaRecovers(o.parentID.GetOr(""), e);
    MetaRecovers(o.refID.GetOr(""), e);
    DecimalTells(o.childCount);
  }

  lemma KindStarts(o: MediaObject, filter: bv32, e: bool)
    ensures (if IsContainer(o.mediaClass) then "container " else "item ") <= Tag(Kind(o), StartPairs(o, filter, e))
  {
    TagStarts(Kind(o), StartPairs(o, filter, e));
    hide IsContainer, Tag;
    assert "container" + " " == "container " && "item" + " " == "item ";
  }

  lemma NoSign(n: int)
    ensures SignedTold(None, false, n)
  {
  }

  lemma StartValues(o: MediaObject, filter: bv32, e: bool, name: string)
    requires ClassOf(o.mediaClass).Named() && CleanObject(o, e) && ' ' !in name
    ensures ValueOf(Tag(Kind(o), StartPairs(o, filter, e)), name) ==
      if name == "id" then Some(Meta(o.id.GetOr(""), e))
      else if name == "parentID" then Some(Meta(o.parentID.GetOr(""), e))
      else if name == "restricted" then Some(Digit(o.restricted))
      else if IsContainer(o.mediaClass) then
        if name == "searchable" && Has(filter, Filter.Searchable) then Some(Digit(o.searchable))
        else if name == "childCount" && Has(filter, Filter.ChildCount) then Some(Decimal(o.childCount))
        else None
      else if name == "refID" && !Empty(o.refID) then Some(Meta(o.refID.GetOr(""), e)) else None
  {
    hide *;
    StartValue(o, filter, e, name);
    StartIsFirst(o, filter, e, name);
    MoreIsFirst(o, filter, e, name);
  }

  // ----- everything

  /** What a reader is told: the start tag, the elements shown that the object has, and its resources in order. */
  ghost predicate ObjectTold(ns: seq<Node>, o: MediaObject, filter: bv32, shown: bv32, e: bool, time: string)
    requires ClassOf(o.mediaClass).Named()
  {
    && ns != [] && StartTold(ns[0].tag, o, filter, e)
    && TextTold(Content(ns, "dc:title"), true, o.title.GetOr(""), e)
    && Content(ns, "upnp:class") == Some(ClassText(ClassOf(o.mediaClass)))
    && TextTold(Content(ns, "dc:creator"), o.creator.Some? && Has(shown, Filter.Creator), o.creator.GetOr(""), e)
    && TextTold(Content(ns, "upnp:genre"), o.genre.Some? && Has(shown, Filter.Genre), o.genre.GetOr(""), e)
    && TextTold(Content(ns, "upnp:album"), o.album.Some? && Has(shown, Filter.Album), o.album.GetOr(""), e)
    && ResourcesTold(ResourceNodes(ns), if Has(shown, Filter.Res) then o.res else [], shown, e, time)
  }

  ghost predicate ResourcesTold(ns: seq<Node>, rs: seq<Resource>, shown: bv32, e: bool, time: string) {
    && |ns| == |rs|
    && forall k :: 0 <= k < |rs| ==>
      && TextTold(Some(ns[k].content), true, rs[k].value.GetOr(""), e)
      && ResourceTold(ns[k].tag, rs[k], shown, e, TimeAfter(rs[..k], shown, time))
  }

  predicate PrintsTime(r: Resource, shown: bv32) {
    r.duration > 0 && Has(shown, Filter.Duration)
  }

  /** The time buffer holds the last positive duration that was shown, or what it held to begin with. */
  lemma {:induction false} TimeAfterMeans(rs: seq<Resource>, shown: bv32, time: string) returns (k: int)
    ensures -1 <= k < |rs| && forall j :: k < j < |rs| ==> !PrintsTime(rs[j], shown)
    ensures k >= 0 ==> PrintsTime(rs[k], shown)
    ensures TimeAfter(rs, shown, time) == if k >= 0 then TimeString(rs[k].duration, "") else time
  {
    hide Has, TwoDigits;
    k := -1;
    if rs != [] {
      var last := |rs| - 1;
      k := TimeAfterMeans(rs[..last], shown, time);
      if PrintsTime(rs[last], shown) {
        k := last;
      }
    }
  }

  lemma ResourcesAreRead(o: MediaObject, shown: bv32, e: bool, time: string)
    requires CleanObject(o, e) && AllTimely(o.res, time)
    ensures ResourcesTold(ResourceNodes(MiddleNodes(o, shown, e, time)), if Has(shown, Filter.Res) then o.res else [],
                          shown, e, time)
  {
    ResourcesAreClean(o, e);
    hide CleanObject, CleanResource, AllTimely, Has, ResourcesTold, ResourcesNodes, ResourceNodes;
    NoResources(shown, e, time);
    if Has(shown, Filter.Res) {
      SelectedAreTold(o.res, shown, e, time);
    }
  }

  lemma SelectedAreTold(rs: seq<Resource>, shown: bv32, e: bool, time: string)
    requires AllTimely(rs, time) && forall k :: 0 <= k < |rs| ==> CleanResource(rs[k], e)
    ensures ResourcesTold(ResourceNodes(ResourcesNodes(rs, shown, e, time)), rs, shown, e, time)
  {
    hide CleanResource, AllTimely, ResourceTold, TimeAfter, Recovers, Meta, ResourcesNodes, ResourceNodes;
    AllAreSelected(rs, shown, e, time);
    forall k | 0 <= k < |rs| ensures Recovers(Meta(rs[k].value.GetOr(""), e), rs[k].value.GetOr(""), e) {
      MetaRecovers(rs[k].value.GetOr(""), e);
    }
  }

  lemma NoResources(shown: bv32, e: bool, time: string)
    ensures ResourcesTold(ResourceNodes([]), [], shown, e, time)
  {
  }

  lemma ElementsAreRead(o: MediaObject, filter: bv32, shown: bv32, e: bool, time: string)
    requires ClassOf(o.mediaClass).Named()
    ensures var ns := ObjectNodes(o, filter, shown, e, time);
      && TextTold(Content(ns, "dc:title"), true, o.title.GetOr(""), e)
      && Content(ns, "upnp:class") == Some(ClassText(ClassOf(o.mediaClass)))
      && TextTold(Content(ns, "dc:creator"), o.creator.Some? && Has(shown, Filter.Creator), o.creator.GetOr(""), e)
      && TextTold(Content(ns, "upnp:genre"), o.genre.Some? && Has(shown, Filter.Genre), o.genre.GetOr(""), e)
      && TextTold(Content(ns, "upnp:album"), o.album.Some? && Has(shown, Filter.Album), o.album.GetOr(""), e)
  {
    NamesHaveNoBlanks();
    hide Class.Named, ClassOf, Content, ObjectNodes, TailNodes, Meta, Recovers, Has, ClassText;
    ContentOf(o, filter, shown, e, time, "dc:title");
    ContentOf(o, filter, shown, e, time, "upnp:class");
    ContentOf(o, filter, shown, e, time, "dc:creator");
    ContentOf(o, filter, shown, e, time, "upnp:genre");
    ContentOf(o, filter, shown, e, time, "upnp:album");
    TailContent(o, shown, e, "dc:creator");
    TailContent(o, shown, e, "upnp:genre");
    TailContent(o, shown, e, "upnp:album");
    MetaRecovers(o.title.GetOr(""), e);
    MetaRecovers(o.creator.GetOr(""), e);
    MetaRecovers(o.genre.GetOr(""), e);
    MetaRecovers(o.album.GetOr(""), e);
  }

  lemma NamesHaveNoBlanks()
    ensures ' ' !in "dc:title" && ' ' !in "upnp:class" && ' ' !in "dc:creator"
    ensures ' ' !in "upnp:genre" && ' ' !in "upnp:album"
  {
  }

  /** The reading law: from the text of any object, unescaped once and taken apart at brackets and quotes, a
      reader recovers every attribute and element of the object that is shown, and nothing else by their names. */
  lemma ObjectIsRead(o: MediaObject, filter: bv32, shown: bv32, e: bool, time: string)
    requires ClassOf(o.mediaClass).Named() && CleanObject(o, e) && AllTimely(o.res, time)
    ensures ObjectTold(Nodes(XmlEscape.Unescape(ObjectText(o, filter, shown, e, time))), o, filter, shown, e, time)
  {
    hide Class.Named, ClassOf, CleanObject, AllTimely, ObjectText, Nodes, XmlEscape.Unescape, StartTold, Has;
    hide ResourcesTold;
    hide Recovers, Content, ResourceNodes, ClassText, Tag, StartPairs, MiddleNodes, TailNodes, Kind;
    ObjectNodesAreRead(o, filter, shown, e, time);
    StartIsRead(o, filter, e);
    ElementsAreRead(o, filter, shown, e, time);
    SelectedOf(o, filter, shown, e, time);
    ResourcesAreRead(o, shown, e, time);
  }
}
