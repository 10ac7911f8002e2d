/** The DIDL-Lite serialiser: a first pass computes the size of the buffer, a second one writes the text. */
module DidlSize {
  import opened Options
  import opened Numbers
  import Sequences
  import XmlEscape
  import Filter = DidlFilter

  type int32 = n: int | -0x8000_0000 <= n < 0x8000_0000
  type uint64 = n: int | 0 <= n < 0x1_0000_0000_0000_0000

  datatype Resource = Resource(
    value: Option<string>, protocolInfo: string, resolutionX: int32, resolutionY: int32, duration: int32,
    bitrate: int32, colorDepth: int32, size: uint64, bitsPerSample: int32, sampleFrequency: int32,
    nrAudioChannels: int32, protection: Option<string>)

  /** `struct CdsMediaObject` without the fields that only broadcast and programme filters ask for. */
  datatype MediaObject = MediaObject(
    id: Option<string>, parentID: Option<string>, refID: Option<string>, title: Option<string>,
    creator: Option<string>, album: Option<string>, genre: Option<string>,
    mediaClass: nat, childCount: int32, restricted: bool, searchable: bool, res: seq<Resource>)

  const SIZE_INT32_AS_CHARS := 12
  const SIZE_INT64_AS_CHARS := 24
  const MAX_TIME_STRING_SIZE := 17

  // ----- printing

  predicate Has(bits: bv32, flag: bv32) {
    bits & flag != 0
  }

  /** `fnEscape`: the metadata may have been escaped once already. */
  function Escaped(s: string, metadataXmlEscaped: bool): string {
    if metadataXmlEscaped then XmlEscape.Escape(s) else XmlEscape.DoubleEscape(s)
  }

  function Decimal(n: int): string {
    if n < 0 then "-" + PrintNat(-n, 10) else PrintNat(n, 10)
  }

  function TwoDigits(n: nat): string {
    if n < 10 then "0" + PrintNat(n, 10) else PrintNat(n, 10)
  }

  /** CdsObjectToDidl_Helper_WriteTimeString leaves the buffer alone for 0 and below. */
  function TimeString(seconds: int, before: string): string {
    if seconds > 0 then
      TwoDigits(seconds / 3600 % 60) + ":" + TwoDigits(seconds / 60 % 60) + ":" + TwoDigits(seconds % 60)
    else before
  }

  lemma DecimalLength(n: int, k: nat)
    requires k > 0 && n < Power(10, k)
    ensures n >= 0 ==> |Decimal(n)| <= k
    ensures -n < Power(10, k) ==> |Decimal(n)| <= k + 1
  {
    if n >= 0 {
      PrintedLength(n, 10, k);
    } else if -n < Power(10, k) {
      PrintedLength(-n, 10, k);
    }
  }

  lemma TenDigits()
    ensures Power(10, 10) == 10_000_000_000 && Power(10, 20) == 100_000_000_000_000_000_000 && Power(10, 2) == 100
  {
    assert Power(10, 5) == 100_000;
    assert Power(10, 10) == 10_000_000_000;
    assert Power(10, 15) == 1_000_000_000_000_000;
  }

  lemma Int32Length(n: int32)
    ensures n >= 0 ==> |Decimal(n)| <= 10
    ensures |Decimal(n)| <= 11
  {
    TenDigits();
    DecimalLength(n, 10);
  }

  lemma Uint64Length(n: uint64)
    ensures |Decimal(n)| <= 20
  {
    TenDigits();
    DecimalLength(n, 20);
  }

  lemma TimeLength(seconds: int, before: string)
    requires seconds > 0
    ensures |TimeString(seconds, before)| == 8
  {
    TwoLength(seconds / 3600 % 60);
    TwoLength(seconds / 60 % 60);
    TwoLength(seconds % 60);
  }

  lemma TwoLength(n: nat)
    requires n < 60
    ensures |TwoDigits(n)| == 2
  {
    if n >= 10 {
      assert |PrintNat(n / 10, 10)| == 1;
    }
  }

  // ----- one resource

  /** The optional attributes, in the order of both passes. */
  datatype Attribute =
    Bitrate | BitsPerSample | ColorDepth | Duration | NrAudioChannels | Protection | Resolution | SampleFrequency | Size

  const Attributes :=
    [Bitrate, BitsPerSample, ColorDepth, Duration, NrAudioChannels, Protection, Resolution, SampleFrequency, Size]

  function Flag(a: Attribute): bv32 {
    match a
    case Bitrate => Filter.Bitrate
    case BitsPerSample => Filter.BitsPerSample
    case ColorDepth => Filter.ColorDepth
    case Duration => Filter.Duration
    case NrAudioChannels => Filter.NrAudioChannels
    case Protection => Filter.Protection
    case Resolution => Filter.Resolution
    case SampleFrequency => Filter.SampleFrequency
    case Size => Filter.Size
  }

  /** When the sizing pass counts the attribute, apart from the filter. */
  predicate Counted(a: Attribute, r: Resource) {
    match a
    case Bitrate => r.bitrate >= 0
    case BitsPerSample => r.bitsPerSample >= 0
    case ColorDepth => r.colorDepth >= 0
    case Duration => r.duration >= 0
    case NrAudioChannels => r.nrAudioChannels >= 0
    case Protection => r.protection.Some?
    case Resolution => r.resolutionX >= 0 && r.resolutionY > 0
    case SampleFrequency => r.sampleFrequency >= 0
    case Size => true
  }

  function Room(a: Attribute, r: Resource, e: bool): nat {
    match a
    case Bitrate => 21 + SIZE_INT32_AS_CHARS
    case BitsPerSample => 27 + SIZE_INT32_AS_CHARS
    case ColorDepth => 24 + SIZE_INT32_AS_CHARS
    case Duration => 22 + MAX_TIME_STRING_SIZE
    case NrAudioChannels => 29 + SIZE_INT32_AS_CHARS
    case Protection => 24 + |Escaped(r.protection.GetOr(""), e)| + 1
    case Resolution => 24 + SIZE_INT32_AS_CHARS + SIZE_INT32_AS_CHARS
    case SampleFrequency => 29 + SIZE_INT32_AS_CHARS
    case Size => 18 + SIZE_INT64_AS_CHARS
  }

  /** When the writing pass prints it, apart from the flags of the first pass. */
  predicate Printed(a: Attribute, r: Resource) {
    if a == Resolution then r.resolutionX >= 0 && r.resolutionY >= 0 else Counted(a, r)
  }

  function Name(a: Attribute): string {
    match a
    case Bitrate => "bitrate"
    case BitsPerSample => "bitsPerSample"
    case ColorDepth => "colorDepth"
    case Duration => "duration"
    case NrAudioChannels => "nrAudioChannels"
    case Protection => "protection"
    case Resolution => "resolution"
    case SampleFrequency => "sampleFrequency"
    case Size => "size"
  }

  function Value(a: Attribute, r: Resource, e: bool, time: string): string {
    match a
    case Bitrate => Decimal(r.bitrate / 8)
    case BitsPerSample => Decimal(r.bitsPerSample)
    case ColorDepth => Decimal(r.colorDepth)
    case Duration => TimeString(r.duration, time)
    case NrAudioChannels => Decimal(r.nrAudioChannels)
    case Protection => Escaped(r.protection.GetOr(""), e)
    case Resolution => Decimal(r.resolutionX) + "x" + Decimal(r.resolutionY)
    case SampleFrequency => Decimal(r.sampleFrequency)
    case Size => Decimal(r.size)
  }

  function AttributeText(a: Attribute, r: Resource, e: bool, time: string): string {
    " " + Name(a) + "=&quot;" + Value(a, r, e, time) + "&quot;"
  }

  function AttributesRoom(attributes: seq<Attribute>, r: Resource, filter: bv32, e: bool): nat {
    if attributes == [] then 0
    else
      var a := attributes[0];
      (if Counted(a, r) && Has(filter, Flag(a)) then Room(a, r, e) else 0)
      + AttributesRoom(attributes[1..], r, filter, e)
  }

  function AttributesText(attributes: seq<Attribute>, r: Resource, shown: bv32, e: bool, time: string): string {
    if attributes == [] then ""
    else
      var a := attributes[0];
      (if Printed(a, r) && Has(shown, Flag(a)) then AttributeText(a, r, e, time) else "")
      + AttributesText(attributes[1..], r, shown, e, time)
  }

  /** The bytes the sizing pass counts for a resource. */
  function ResSize(r: Resource, filter: bv32, e: bool): nat {
    35 + 16 + |Escaped(r.protocolInfo, e)| + |Escaped(r.value.GetOr(""), e)| + AttributesRoom(Attributes, r, filter, e)
  }

  function ResStart(): (t: string)
    ensures |t| == 29
  {
    "\r\n&lt;res protocolInfo=&quot;"
  }

  function ResEnd(): (t: string)
    ensures |t| == 12
  {
    "&lt;/res&gt;"
  }

  /** What the writing pass prints for a resource. */
  function ResText(r: Resource, shown: bv32, e: bool, time: string): string {
    ResStart() + Escaped(r.protocolInfo, e) + "&quot;" + AttributesText(Attributes, r, shown, e, time)
    + "&gt;" + Escaped(r.value.GetOr(""), e) + ResEnd()
  }

  /** Where the two passes agree: a height of 0 is printed but not counted, and a duration of 0 prints
      what the time buffer holds. */
  predicate Measured(r: Resource) {
    (r.resolutionX >= 0 ==> r.resolutionY != 0) && r.duration != 0
  }

  /** Nothing is printed that the filter did not ask for. */
  predicate Within(shown: bv32, filter: bv32) {
    shown & !filter == 0
  }

  lemma WithinHas(shown: bv32, filter: bv32, flag: bv32)
    requires Within(shown, filter)
    ensures Has(shown, flag) ==> Has(filter, flag)
  {
  }

  lemma ValueLength(a: Attribute, r: Resource, e: bool, time: string)
    requires Printed(a, r) && Measured(r)
    ensures |Name(a)| + |Value(a, r, e, time)| + 14 <= Room(a, r, e)
  {
    hide Decimal, TimeString, Escaped;
    match a
    case Bitrate => Int32Length(r.bitrate / 8);
    case BitsPerSample => Int32Length(r.bitsPerSample);
    case ColorDepth => Int32Length(r.colorDepth);
    case Duration => TimeLength(r.duration, time);
    case NrAudioChannels => Int32Length(r.nrAudioChannels);
    case Protection =>
    case Resolution =>
      Int32Length(r.resolutionX);
      Int32Length(r.resolutionY);
    case SampleFrequency => Int32Length(r.sampleFrequency);
    case Size => Uint64Length(r.size);
  }

  lemma AttributeFits(a: Attribute, r: Resource, e: bool, time: string)
    requires Printed(a, r) && Measured(r)
    ensures Counted(a, r) && |AttributeText(a, r, e, time)| <= Room(a, r, e)
  {
    ValueLength(a, r, e, time);
    hide Name, Value, Room;
  }

  lemma {:induction false} AttributesFit(attributes: seq<Attribute>, r: Resource, shown: bv32, filter: bv32, e: bool,
                                         time: string)
    requires Within(shown, filter) && Measured(r)
    ensures |AttributesText(attributes, r, shown, e, time)| <= AttributesRoom(attributes, r, filter, e)
  {
    if attributes != [] {
      var a := attributes[0];
      WithinHas(shown, filter, Flag(a));
      hide Has, Within, Flag, AttributeText, Room, Measured, Counted, Printed;
      if Printed(a, r) {
        AttributeFits(a, r, e, time);
      }
      AttributesFit(attributes[1..], r, shown, filter, e, time);
    }
  }

  /** The text of a resource fits the bytes counted for it. */
  lemma ResFits(r: Resource, shown: bv32, filter: bv32, e: bool, time: string)
    requires Within(shown, filter) && Measured(r)
    ensures |ResText(r, shown, e, time)| <= ResSize(r, filter, e)
  {
    AttributesFit(Attributes, r, shown, filter, e, time);
    hide AttributesText, AttributesRoom, Escaped;
  }

  // ----- the resources

  function ResourcesSize(rs: seq<Resource>, filter: bv32, e: bool): nat {
    if rs == [] then 0 else ResourcesSize(rs[..|rs| - 1], filter, e) + ResSize(rs[|rs| - 1], filter, e)
  }

  /** The flags the sizing pass raises for the attributes it counts. */
  function Raised(attributes: seq<Attribute>, r: Resource, filter: bv32): bv32 {
    if attributes == [] then 0
    else
      var a := attributes[0];
      Filter.Or(if Counted(a, r) && Has(filter, Flag(a)) then Flag(a) else 0, Raised(attributes[1..], r, filter))
  }

  function AllRaised(rs: seq<Resource>, filter: bv32): bv32 {
    if rs == [] then 0 else Filter.Or(AllRaised(rs[..|rs| - 1], filter), Raised(Attributes, rs[|rs| - 1], filter))
  }

  /** The time buffer behind the resources. */
  function TimeAfter(rs: seq<Resource>, shown: bv32, time: string): string {
    if rs == [] then time
    else
      var before, r := TimeAfter(rs[..|rs| - 1], shown, time), rs[|rs| - 1];
      if r.duration >= 0 && Has(shown, Filter.Duration) then TimeString(r.duration, before) else before
  }

  function ResourcesText(rs: seq<Resource>, shown: bv32, e: bool, time: string): string {
    if rs == [] then ""
    else
      var init := rs[..|rs| - 1];
      ResourcesText(init, shown, e, time) + ResText(rs[|rs| - 1], shown, e, TimeAfter(init, shown, time))
  }

  lemma WithinOr(a: bv32, b: bv32, filter: bv32)
    requires Within(a, filter) && Within(b, filter)
    ensures Within(Filter.Or(a, b), filter)
  {
  }

  lemma FlagWithin(a: Attribute, filter: bv32)
    requires Has(filter, Flag(a))
    ensures Within(Flag(a), filter)
  {
  }

  lemma NoneWithin(filter: bv32)
    ensures Within(0, filter)
  {
  }

  lemma {:induction false} RaisedWithin(attributes: seq<Attribute>, r: Resource, filter: bv32)
    ensures Within(Raised(attributes, r, filter), filter)
  {
    hide Within, Has, Flag, Filter.Or, Counted;
    NoneWithin(filter);
    if attributes != [] {
      var a := attributes[0];
      RaisedWithin(attributes[1..], r, filter);
      if Has(filter, Flag(a)) {
        FlagWithin(a, filter);
        WithinOr(Flag(a), Raised(attributes[1..], r, filter), filter);
      }
      WithinOr(0, Raised(attributes[1..], r, filter), filter);
    }
  }

  lemma {:induction false} AllRaisedWithin(rs: seq<Resource>, filter: bv32)
    ensures Within(AllRaised(rs, filter), filter)
  {
    hide Within, Filter.Or, Raised;
    NoneWithin(filter);
    if rs != [] {
      AllRaisedWithin(rs[..|rs| - 1], filter);
      RaisedWithin(Attributes, rs[|rs| - 1], filter);
      WithinOr(AllRaised(rs[..|rs| - 1], filter), Raised(Attributes, rs[|rs| - 1], filter), filter);
    }
  }

  lemma {:induction false} ResourcesFit(rs: seq<Resource>, shown: bv32, filter: bv32, e: bool, time: string)
    requires Within(shown, filter) && forall k :: 0 <= k < |rs| ==> Measured(rs[k])
    ensures |ResourcesText(rs, shown, e, time)| <= ResourcesSize(rs, filter, e)
  {
    hide Within, ResText, ResSize, Measured;
    if rs != [] {
      var init := rs[..|rs| - 1];
      ResourcesFit(init, shown, filter, e, time);
      ResFits(rs[|rs| - 1], shown, filter, e, TimeAfter(init, shown, time));
    }
  }

  // ----- the object

  const ObjectTypes := ["", "object.item", "object.container"]
  const MajorTypes := [
    "", "imageItem", "audioItem", "videoItem", "playlistItem", "textItem", "person", "playlistContainer",
    "album", "genre", "storageSystem", "storageVolume", "storageFolder", "epgContainer", "epgItem"]
  const Minor1Types := [
    "", "photo", "musicTrack", "audioBroadcast", "audioBook", "movie", "videoBroadcast", "musicVideClip",
    "musicArtist", "musicAlbum", "photoAlbum", "musicGenre", "movieGenre", "videoProgram", "audioProgram"]
  const Minor2Types := [""]

  /** The media class code, as the indices into the tables of class names. */
  datatype Class = Class(kind: nat, major: nat, minor1: nat, minor2: nat) {
    /** The range checks of the sizing pass let the length of a table through as an index. */
    predicate Named() {
      kind < |ObjectTypes| && major < |MajorTypes| && minor1 < |Minor1Types| && minor2 < |Minor2Types|
    }
  }

  function ClassOf(code: nat): Class {
    Class(code % 4, code / 0x100_0000 % 256, code / 0x1_0000 % 256, code / 0x100 % 256)
  }

  predicate IsContainer(code: nat) {
    code / 2 % 2 == 1
  }

  predicate IsItem(code: nat) {
    code % 2 == 1
  }

  predicate Empty(s: Option<string>) {
    s.GetOr("") == ""
  }

  datatype Sized = Fits(size: nat, shown: bv32) | Failed(code: int) | PastTable

  function Field(s: Option<string>, filter: bv32, flag: bv32, e: bool): nat {
    if s.Some? && Has(filter, flag) then 39 + |Escaped(s.value, e)| else 0
  }

  function FieldFlag(s: Option<string>, filter: bv32, flag: bv32): bv32 {
    if s.Some? && Has(filter, flag) then flag else 0
  }

  /** The checks of the sizing pass, in its order. */
  function Check(o: MediaObject): int {
    var c := ClassOf(o.mediaClass);
    if Empty(o.id) then -8
    else if Empty(o.parentID) then -9
    else if Empty(o.title) then -7
    else if o.mediaClass == 0 then -1
    else if o.refID.Some? && IsContainer(o.mediaClass) then -6
    else if c.kind > 3 || c.kind < 1 then -2
    else if c.major > 15 then -3
    else if c.minor1 > 15 then -4
    else if c.minor2 > 1 then -5
    else 0
  }

  /** The errors, each when it is the first to apply: an empty identifier, an empty parent, an empty title, no
      class, a reference on a container, no kind of object, and names beyond the ends of their tables. */
  lemma CheckMeans(o: MediaObject)
    ensures var text := (s: Option<string>) => s.Some? && s.value != "";
      var named := text(o.id) && text(o.parentID) && text(o.title);
      var code := o.mediaClass;
      var sound := named && code != 0 && !(o.refID.Some? && code / 2 % 2 == 1);
      && (Check(o) == -8 <==> !text(o.id))
      && (Check(o) == -9 <==> text(o.id) && !text(o.parentID))
      && (Check(o) == -7 <==> text(o.id) && text(o.parentID) && !text(o.title))
      && (Check(o) == -1 <==> named && code == 0)
      && (Check(o) == -6 <==> named && code != 0 && o.refID.Some? && code / 2 % 2 == 1)
      && (Check(o) == -2 <==> sound && code % 4 == 0)
      && (Check(o) == -3 <==> sound && code % 4 != 0 && code / 0x100_0000 % 256 > 15)
      && (Check(o) == -4 <==> sound && code % 4 != 0 && code / 0x100_0000 % 256 <= 15 && code / 0x1_0000 % 256 > 15)
      && (Check(o) == -5 <==>
            && sound && code % 4 != 0
            && code / 0x100_0000 % 256 <= 15 && code / 0x1_0000 % 256 <= 15 && code / 0x100 % 256 > 1)
  {
  }

  /** Everything but the resources, the header and the footer. */
  function FixedSize(o: MediaObject, filter: bv32, e: bool): nat
    requires ClassOf(o.mediaClass).Named()
  {
    var c := ClassOf(o.mediaClass);
    1 + |Escaped(o.id.GetOr(""), e)| + |Escaped(o.parentID.GetOr(""), e)| + 35 + |Escaped(o.title.GetOr(""), e)|
    + |Escaped(o.refID.GetOr(""), e)|
    + Field(o.creator, filter, Filter.Creator, e) + Field(o.album, filter, Filter.Album, e)
    + Field(o.genre, filter, Filter.Genre, e)
    + |ObjectTypes[c.kind]| + |MajorTypes[c.major]| + |Minor1Types[c.minor1]| + |Minor2Types[c.minor2]| + 39 + 4
    + 1 + (if IsContainer(o.mediaClass) then 1 + 10 + 129 + 20 else (if o.refID.Some? then 95 else 76) + 15)
  }

  function ObjectSize(o: MediaObject, filter: bv32, e: bool, headerFooter: bool): nat
    requires ClassOf(o.mediaClass).Named()
  {
    FixedSize(o, filter, e) + (if Has(filter, Filter.Res) then ResourcesSize(o.res, filter, e) else 0)
    + if headerFooter then 197 + 20 else 0
  }

  function FixedFlags(o: MediaObject, filter: bv32): bv32 {
    Filter.Or(Filter.Or(Filter.Or(0, FieldFlag(o.creator, filter, Filter.Creator)),
                        FieldFlag(o.album, filter, Filter.Album)),
              FieldFlag(o.genre, filter, Filter.Genre))
  }

  function ObjectFlags(o: MediaObject, filter: bv32): bv32 {
    if Has(filter, Filter.Res) then Filter.Or(Filter.Or(FixedFlags(o, filter), Filter.Res), AllRaised(o.res, filter))
    else FixedFlags(o, filter)
  }

  function Sizing(o: MediaObject, filter: bv32, e: bool, headerFooter: bool): Sized {
    if Check(o) != 0 then Failed(Check(o))
    else if !ClassOf(o.mediaClass).Named() then PastTable
    else Fits(ObjectSize(o, filter, e, headerFooter), ObjectFlags(o, filter))
  }

  // ----- the text of the object

  function Element(name: string, value: string): string {
    OpenTag(name) + value + CloseTag(name)
  }

  function OpenTag(name: string): string {
    "\r\n&lt;" + name + "&gt;"
  }

  function CloseTag(name: string): string {
    "&lt;/" + name + "&gt;"
  }

  function Digit(b: bool): string {
    if b then "1" else "0"
  }

  function StartText(o: MediaObject, filter: bv32, e: bool): string {
    (if IsContainer(o.mediaClass) then "\r\n&lt;container id=&quot;" else "\r\n&lt;item id=&quot;")
    + Escaped(o.id.GetOr(""), e) + "&quot; parentID=&quot;" + Escaped(o.parentID.GetOr(""), e)
    + "&quot; restricted=&quot;" + Digit(o.restricted)
    + (if IsContainer(o.mediaClass) then ContainerText(o, filter) else RefText(o.refID, e))
    + "&quot;&gt;"
  }

  function ContainerText(o: MediaObject, filter: bv32): string {
    (if Has(filter, Filter.Searchable) then "&quot; searchable=&quot;" + Digit(o.searchable) else "")
    + (if Has(filter, Filter.ChildCount) then "&quot; childCount=&quot;" + Decimal(o.childCount) else "")
  }

  function RefText(refID: Option<string>, e: bool): string {
    if Empty(refID) then "" else "&quot; refID=&quot;" + Escaped(refID.GetOr(""), e)
  }

  /** The class name; the table of the last level has only the empty name, so nothing is printed for it. */
  function ClassText(c: Class): string
    requires c.Named()
  {
    ObjectTypes[c.kind]
    + (if c.major > 0 then "." + MajorTypes[c.major] else "")
    + (if c.minor1 > 0 then "." + Minor1Types[c.minor1] else "")
  }

  function FieldText(name: string, s: Option<string>, shown: bv32, flag: bv32, e: bool): string {
    if s.Some? && Has(shown, flag) then Element(name, Escaped(s.value, e)) else ""
  }

  function EndText(container: bool): string {
    if container then "\r\n&lt;/container&gt;" else "\r\n&lt;/item&gt;"
  }

  function HeadText(o: MediaObject, filter: bv32, e: bool): string
    requires ClassOf(o.mediaClass).Named()
  {
    StartText(o, filter, e) + Element("dc:title", Escaped(o.title.GetOr(""), e))
    + Element("upnp:class", ClassText(ClassOf(o.mediaClass)))
  }

  function TailText(o: MediaObject, shown: bv32, e: bool): string {
    FieldText("dc:creator", o.creator, shown, Filter.Creator, e)
    + FieldText("upnp:genre", o.genre, shown, Filter.Genre, e)
    + FieldText("upnp:album", o.album, shown, Filter.Album, e)
    + EndText(IsContainer(o.mediaClass))
  }

  function ObjectText(o: MediaObject, filter: bv32, shown: bv32, e: bool, time: string): string
    requires ClassOf(o.mediaClass).Named()
  {
    HeadText(o, filter, e) + (if Has(shown, Filter.Res) then ResourcesText(o.res, shown, e, time) else "")
    + TailText(o, shown, e)
  }

  lemma ElementLength(name: string, value: string)
    ensures |Element(name, value)| == 19 + 2 * |name| + |value|
  {
  }

  lemma FieldFits(name: string, s: Option<string>, shown: bv32, filter: bv32, flag: bv32, e: bool)
    requires |name| == 10 && Within(shown, filter)
    ensures |FieldText(name, s, shown, flag, e)| <= Field(s, filter, flag, e)
  {
    WithinHas(shown, filter, flag);
    if s.Some? {
      ElementLength(name, Escaped(s.value, e));
    }
    hide Element, Escaped, Has, Within;
  }

  lemma StartFits(o: MediaObject, filter: bv32, e: bool)
    ensures |StartText(o, filter, e)| + |EndText(IsContainer(o.mediaClass))| <=
      |Escaped(o.id.GetOr(""), e)| + |Escaped(o.parentID.GetOr(""), e)| + |Escaped(o.refID.GetOr(""), e)| + 2
      + if IsContainer(o.mediaClass) then 1 + 10 + 129 + 20 else (if o.refID.Some? then 95 else 76) + 15
  {
    Int32Length(o.childCount);
    hide Escaped, Decimal, Has;
  }

  lemma ClassFits(c: Class)
    requires c.Named()
    ensures |ClassText(c)| + 2 <=
      |ObjectTypes[c.kind]| + |MajorTypes[c.major]| + |Minor1Types[c.minor1]| + |Minor2Types[c.minor2]| + 4
  {
  }

  lemma BitWithin(flag: bv32, filter: bv32)
    requires flag == Filter.Creator || flag == Filter.Album || flag == Filter.Genre || flag == Filter.Res
    requires Has(filter, flag)
    ensures Within(flag, filter)
  {
  }

  lemma FieldFlagWithin(s: Option<string>, filter: bv32, flag: bv32)
    requires flag == Filter.Creator || flag == Filter.Album || flag == Filter.Genre
    ensures Within(FieldFlag(s, filter, flag), filter)
  {
    NoneWithin(filter);
    if Has(filter, flag) {
      BitWithin(flag, filter);
    }
    hide Within, Has;
  }

  lemma FixedFlagsWithin(o: MediaObject, filter: bv32)
    ensures Within(FixedFlags(o, filter), filter)
  {
    var a := Filter.Or(0, FieldFlag(o.creator, filter, Filter.Creator));
    var b, c := FieldFlag(o.album, filter, Filter.Album), FieldFlag(o.genre, filter, Filter.Genre);
    hide Within, Has, Filter.Or, FieldFlag;
    NoneWithin(filter);
    FieldFlagWithin(o.creator, filter, Filter.Creator);
    FieldFlagWithin(o.album, filter, Filter.Album);
    FieldFlagWithin(o.genre, filter, Filter.Genre);
    WithinOr(0, FieldFlag(o.creator, filter, Filter.Creator), filter);
    WithinOr(a, b, filter);
    WithinOr(Filter.Or(a, b), c, filter);
  }

  lemma ObjectFlagsWithin(o: MediaObject, filter: bv32)
    ensures Within(ObjectFlags(o, filter), filter)
  {
    hide Within, Has, Filter.Or, FixedFlags;
    FixedFlagsWithin(o, filter);
    AllRaisedWithin(o.res, filter);
    if Has(filter, Filter.Res) {
      BitWithin(Filter.Res, filter);
      WithinOr(FixedFlags(o, filter), Filter.Res, filter);
      WithinOr(Filter.Or(FixedFlags(o, filter), Filter.Res), AllRaised(o.res, filter), filter);
    }
  }

  predicate AllMeasured(rs: seq<Resource>) {
    forall k :: 0 <= k < |rs| ==> Measured(rs[k])
  }

  lemma FixedFits(o: MediaObject, filter: bv32, shown: bv32, e: bool)
    requires ClassOf(o.mediaClass).Named() && Within(shown, filter)
    ensures |HeadText(o, filter, e)| + |TailText(o, shown, e)| < FixedSize(o, filter, e)
  {
    hide Within, Has, StartText, EndText, ClassText, Element, FieldText, Field, Escaped, Class.Named, ClassOf;
    FieldFits("dc:creator", o.creator, shown, filter, Filter.Creator, e);
    FieldFits("upnp:genre", o.genre, shown, filter, Filter.Genre, e);
    FieldFits("upnp:album", o.album, shown, filter, Filter.Album, e);
    StartFits(o, filter, e);
    ClassFits(ClassOf(o.mediaClass));
    ElementLength("dc:title", Escaped(o.title.GetOr(""), e));
    ElementLength("upnp:class", ClassText(ClassOf(o.mediaClass)));
  }

  /** The writing pass stays below the size of the sizing pass, header and footer included. */
  lemma ObjectFits(o: MediaObject, filter: bv32, e: bool, headerFooter: bool, time: string)
    requires ClassOf(o.mediaClass).Named() && AllMeasured(o.res)
    ensures |ObjectText(o, filter, ObjectFlags(o, filter), e, time)| + (if headerFooter then 197 + 20 else 0)
      < ObjectSize(o, filter, e, headerFooter)
  {
    var shown := ObjectFlags(o, filter);
    ObjectFlagsWithin(o, filter);
    WithinHas(shown, filter, Filter.Res);
    ResourcesFit(o.res, shown, filter, e, time);
    FixedFits(o, filter, shown, e);
    hide ObjectFlags, Within, Has, ResourcesText, ResourcesSize, HeadText, TailText, FixedSize, Class.Named, ClassOf;
  }

  // ----- the sizing pass

  lemma NothingEscaped(e: bool)
    ensures Escaped("", e) == ""
  {
  }

  lemma RoomAt(attributes: seq<Attribute>, k: nat, r: Resource, filter: bv32, e: bool)
    requires k < |attributes|
    ensures AttributesRoom(attributes[k..], r, filter, e) ==
      (if Counted(attributes[k], r) && Has(filter, Flag(attributes[k])) then Room(attributes[k], r, e) else 0)
      + AttributesRoom(attributes[k + 1..], r, filter, e)
    ensures Raised(attributes[k..], r, filter) ==
      Filter.Or(if Counted(attributes[k], r) && Has(filter, Flag(attributes[k])) then Flag(attributes[k]) else 0,
                Raised(attributes[k + 1..], r, filter))
  {
    hide Room, Flag, Has, Counted, Filter.Or;
    assert attributes[k..][1..] == attributes[k + 1..];
  }

  /** The tests of the optional attributes. */
  method CountAttributes(attributes: seq<Attribute>, r: Resource, filter: bv32, e: bool, before: nat, raised: bv32)
    returns (size: nat, shown: bv32)
    ensures size == before + AttributesRoom(attributes, r, filter, e)
    ensures shown == Filter.Or(raised, Raised(attributes, r, filter))
  {
    hide Room, Flag, Has, Counted, Filter.Or;
    size, shown := before, raised;
    assert attributes[0..] == attributes;
    for k := 0 to |attributes|
      invariant size + AttributesRoom(attributes[k..], r, filter, e) ==
        before + AttributesRoom(attributes, r, filter, e)
      invariant Filter.Or(shown, Raised(attributes[k..], r, filter)) == Filter.Or(raised, Raised(attributes, r, filter))
    {
      hide AttributesRoom, Raised;
      var a := attributes[k];
      RoomAt(attributes, k, r, filter, e);
      ghost var flag := if Counted(a, r) && Has(filter, Flag(a)) then Flag(a) else 0;
      Filter.OrAssoc(shown, flag, Raised(attributes[k + 1..], r, filter));
      Filter.OrAssoc(shown, 0, 0);
      if Counted(a, r) && Has(filter, Flag(a)) {
        shown := Filter.Or(shown, Flag(a));
        size := size + Room(a, r, e);
      }
    }
    Filter.OrAssoc(shown, 0, 0);
  }

  method SizeResources(rs: seq<Resource>, filter: bv32, e: bool, before: nat, raised: bv32)
    returns (size: nat, shown: bv32)
    ensures size == before + ResourcesSize(rs, filter, e) && shown == Filter.Or(raised, AllRaised(rs, filter))
  {
    size, shown := before, raised;
    assert rs[..0] == [];
    NothingEscaped(e);
    Filter.OrAssoc(raised, 0, 0);
    hide AttributesRoom, Raised, Filter.Or, Escaped;
    for i := 0 to |rs|
      invariant size == before + ResourcesSize(rs[..i], filter, e)
      invariant shown == Filter.Or(raised, AllRaised(rs[..i], filter))
    {
      var r := rs[i];
      assert rs[..i + 1][..i] == rs[..i] && rs[..i + 1][i] == r;
      Filter.OrAssoc(raised, AllRaised(rs[..i], filter), Raised(Attributes, r, filter));
      size := size + 35 + 16;
      size := size + |Escaped(r.protocolInfo, e)|;
      if r.value.Some? {
        size := size + |Escaped(r.value.value, e)|;
      }
      size, shown := CountAttributes(Attributes, r, filter, e, size, shown);
    }
    assert rs[..|rs|] == rs;
  }

  /** A text field, when it is there and asked for. */
  method SizeField(s: Option<string>, filter: bv32, flag: bv32, e: bool, before: nat, raised: bv32)
    returns (size: nat, shown: bv32)
    ensures size == before + Field(s, filter, flag, e) && shown == Filter.Or(raised, FieldFlag(s, filter, flag))
  {
    size, shown := before, raised;
    Filter.OrAssoc(raised, 0, 0);
    hide Filter.Or, Has, Escaped;
    if s.Some? && Has(filter, flag) {
      size := size + 39 + |Escaped(s.value, e)|;
      shown := Filter.Or(shown, flag);
    }
  }

  /** The class names, the tags of the element, and its flags. */
  method SizeTags(o: MediaObject, c: Class, before: nat) returns (size: nat)
    requires c.Named() && c.kind > 0 && c == ClassOf(o.mediaClass)
    ensures size ==
      before + |ObjectTypes[c.kind]| + |MajorTypes[c.major]| + |Minor1Types[c.minor1]| + |Minor2Types[c.minor2]|
      + 39 + 4 + 1 + if IsContainer(o.mediaClass) then 1 + 10 + 129 + 20 else (if o.refID.Some? then 95 else 76) + 15
  {
    size := before;
    size := size + |ObjectTypes[c.kind]|;
    size := size + |MajorTypes[c.major]|;
    size := size + |Minor1Types[c.minor1]|;
    size := size + |Minor2Types[c.minor2]|;
    size := size + 39 + 4;
    size := size + 1;
    ItemOrContainer(o.mediaClass);
    if IsContainer(o.mediaClass) {
      size := size + 1;
      size := size + 10;
      size := size + 129;
      size := size + 20;
    } else if IsItem(o.mediaClass) {
      if o.refID.Some? {
        size := size + 95;
      } else {
        size := size + 76;
      }
      size := size + 15;
    }
  }

  lemma LowBits(code: nat)
    ensures code % 4 == code / 2 % 2 * 2 + code % 2
  {
  }

  lemma ItemOrContainer(code: nat)
    ensures ClassOf(code).kind > 0 ==> IsItem(code) || IsContainer(code)
  {
    LowBits(code);
  }

  /** The first pass: what it counts is more than what the second pass will write, for measured resources and
      whatever the time buffer holds. */
  method ComputeSize(o: MediaObject, filter: bv32, e: bool, headerFooter: bool) returns (s: Sized)
    ensures s == Sizing(o, filter, e, headerFooter)
    ensures s.Fits? && AllMeasured(o.res) ==>
      forall time :: |ObjectText(o, filter, s.shown, e, time)| + (if headerFooter then 197 + 20 else 0) < s.size
  {
    s := CountObject(o, filter, e, headerFooter);
    hide ObjectText, ObjectSize, ObjectFlags, ClassOf, Class.Named, Check;
    forall time | s.Fits? && AllMeasured(o.res)
      ensures |ObjectText(o, filter, s.shown, e, time)| + (if headerFooter then 197 + 20 else 0) < s.size
    {
      ObjectFits(o, filter, e, headerFooter, time);
    }
  }

  method CountObject(o: MediaObject, filter: bv32, e: bool, headerFooter: bool) returns (s: Sized)
    ensures s == Sizing(o, filter, e, headerFooter)
  {
    NothingEscaped(e);
    hide Escaped, Field, FieldFlag, Filter.Or, ResourcesSize, AllRaised, Has;
    var size, shown := 1, 0;
    if Empty(o.id) {
      return Failed(-8);
    }
    size := size + |Escaped(o.id.value, e)|;
    if Empty(o.parentID) {
      return Failed(-9);
    }
    size := size + |Escaped(o.parentID.value, e)|;
    if Empty(o.title) {
      return Failed(-7);
    }
    size := size + 35 + |Escaped(o.title.value, e)|;
    if o.refID.Some? {
      size := size + |Escaped(o.refID.value, e)|;
    }
    size, shown := SizeField(o.creator, filter, Filter.Creator, e, size, shown);
    size, shown := SizeField(o.album, filter, Filter.Album, e, size, shown);
    size, shown := SizeField(o.genre, filter, Filter.Genre, e, size, shown);
    if o.mediaClass == 0 {
      return Failed(-1);
    }
    if o.refID.Some? && IsContainer(o.mediaClass) {
      return Failed(-6);
    }
    var c := ClassOf(o.mediaClass);
    hide ClassOf, IsContainer;
    if c.kind > 3 || c.kind < 1 {
      return Failed(-2);
    }
    if c.major > 15 {
      return Failed(-3);
    }
    if c.minor1 > 15 {
      return Failed(-4);
    }
    if c.minor2 > 1 {
      return Failed(-5);
    }
    if !c.Named() {
      return PastTable;
    }
    size := SizeTags(o, c, size);
    assert Check(o) == 0;
    assert size == FixedSize(o, filter, e) && shown == FixedFlags(o, filter);
    hide Check, FixedSize, FixedFlags;
    if Has(filter, Filter.Res) {
      shown := Filter.Or(shown, Filter.Res);
      size, shown := SizeResources(o.res, filter, e, size, shown);
    }
    if headerFooter {
      size := size + 197;
      size := size + 20;
    }
    s := Fits(size, shown);
  }

  // ----- the writing pass

  lemma TextAt(attributes: seq<Attribute>, k: nat, r: Resource, shown: bv32, e: bool, time: string)
    requires k < |attributes|
    ensures AttributesText(attributes[k..], r, shown, e, time) ==
      (if Printed(attributes[k], r) && Has(shown, Flag(attributes[k]))
       then AttributeText(attributes[k], r, e, time) else "")
      + AttributesText(attributes[k + 1..], r, shown, e, time)
  {
    hide Flag, Has, Printed, AttributeText;
    assert attributes[k..][1..] == attributes[k + 1..];
  }

  lemma TimeAgain(seconds: int, before: string)
    ensures TimeString(seconds, TimeString(seconds, before)) == TimeString(seconds, before)
  {
  }

  /** The optional attributes; the time string is made in a buffer that the next resource finds as it is. */
  method WriteAttributes(attributes: seq<Attribute>, r: Resource, shown: bv32, e: bool, time: string)
    returns (text: string, timeString: string)
    ensures text == AttributesText(attributes, r, shown, e, time)
    ensures timeString ==
      if Duration in attributes && Printed(Duration, r) && Has(shown, Flag(Duration))
      then TimeString(r.duration, time) else time
  {
    hide Has, Flag, Printed, AttributeText, TimeString;
    text, timeString := "", time;
    assert attributes[0..] == attributes;
    for k := 0 to |attributes|
      invariant text + AttributesText(attributes[k..], r, shown, e, time) ==
        AttributesText(attributes, r, shown, e, time)
      invariant timeString ==
        if Duration in attributes[..k] && Printed(Duration, r) && Has(shown, Flag(Duration))
        then TimeString(r.duration, time) else time
    {
      hide AttributesText;
      var a, piece := attributes[k], "";
      TextAt(attributes, k, r, shown, e, time);
      TimeAgain(r.duration, time);
      if Printed(a, r) && Has(shown, Flag(a)) {
        if a == Duration {
          timeString := TimeString(r.duration, timeString);
        }
        piece := AttributeText(a, r, e, time);
      }
      Sequences.Assoc(text, piece, AttributesText(attributes[k + 1..], r, shown, e, time));
      text := text + piece;
    }
    assert attributes[..|attributes|] == attributes;
  }

  lemma DurationFlag(r: Resource)
    ensures Duration in Attributes && Flag(Duration) == Filter.Duration && (Printed(Duration, r) <==> r.duration >= 0)
  {
    assert Attributes[3] == Duration;
  }

  method WriteResource(r: Resource, shown: bv32, e: bool, time: string) returns (text: string, timeString: string)
    ensures text == ResText(r, shown, e, time)
    ensures timeString == if r.duration >= 0 && Has(shown, Filter.Duration) then TimeString(r.duration, time) else time
  {
    NothingEscaped(e);
    DurationFlag(r);
    hide AttributesText, Escaped, ResStart, ResEnd, Has, TimeString;
    var attributes;
    attributes, timeString := WriteAttributes(Attributes, r, shown, e, time);
    text := ResStart();
    text := text + Escaped(r.protocolInfo, e);
    text := text + "&quot;";
    text := text + attributes;
    text := text + "&gt;";
    assert text + "" == text;
    if r.value.Some? {
      text := text + Escaped(r.value.value, e);
    }
    text := text + ResEnd();
  }

  method WriteResources(rs: seq<Resource>, shown: bv32, e: bool, time: string) returns (text: string)
    ensures text == ResourcesText(rs, shown, e, time)
  {
    var timeString := time;
    text := "";
    assert rs[..0] == [];
    hide ResText, TimeString, Has;
    for i := 0 to |rs|
      invariant text == ResourcesText(rs[..i], shown, e, time) && timeString == TimeAfter(rs[..i], shown, time)
    {
      assert rs[..i + 1][..i] == rs[..i] && rs[..i + 1][i] == rs[i];
      var res;
      res, timeString := WriteResource(rs[i], shown, e, timeString);
      text := text + res;
    }
    assert rs[..|rs|] == rs;
  }

  method WriteStart(o: MediaObject, filter: bv32, e: bool) returns (text: string)
    ensures text == StartText(o, filter, e)
  {
    hide Escaped, Has, Decimal;
    var container := IsContainer(o.mediaClass);
    text := if container then "\r\n&lt;container id=&quot;" else "\r\n&lt;item id=&quot;";
    text := text + Escaped(o.id.GetOr(""), e);
    text := text + "&quot; parentID=&quot;";
    text := text + Escaped(o.parentID.GetOr(""), e);
    text := text + "&quot; restricted=&quot;";
    text := text + if o.restricted then "1" else "0";
    var more := "";
    if container {
      if Has(filter, Filter.Searchable) {
        more := "&quot; searchable=&quot;";
        more := more + if o.searchable then "1" else "0";
      }
      assert more + "" == more;
      if Has(filter, Filter.ChildCount) {
        more := more + ("&quot; childCount=&quot;" + Decimal(o.childCount));
      }
    } else {
      if !Empty(o.refID) {
        more := "&quot; refID=&quot;";
        more := more + Escaped(o.refID.value, e);
      }
    }
    text := text + more;
    text := text + "&quot;&gt;";
  }

  method WriteElement(before: string, name: string, value: string) returns (text: string)
    ensures text == before + Element(name, value)
  {
    text := before + OpenTag(name);
    text := text + value;
    text := text + CloseTag(name);
    Sequences.Assoc(before, OpenTag(name), value);
    Sequences.Assoc(before, OpenTag(name) + value, CloseTag(name));
    hide OpenTag, CloseTag;
  }

  method WriteField(before: string, name: string, s: Option<string>, shown: bv32, flag: bv32, e: bool)
    returns (text: string)
    ensures text == before + FieldText(name, s, shown, flag, e)
  {
    hide Element, Has, Escaped;
    text := before;
    assert before + "" == before;
    if s.Some? && Has(shown, flag) {
      text := WriteElement(text, name, Escaped(s.value, e));
    }
  }

  method WriteClass(c: Class) returns (text: string)
    requires c.Named()
    ensures text == ClassText(c)
  {
    text := ObjectTypes[c.kind];
    assert text + "" == text;
    if c.major > 0 {
      text := text + ("." + MajorTypes[c.major]);
    }
    assert text + "" == text;
    if c.minor1 > 0 {
      text := text + ("." + Minor1Types[c.minor1]);
    }
  }

  /** The second pass: with the flags of the first one and measured resources it stays below the computed size. */
  method Write(o: MediaObject, filter: bv32, shown: bv32, e: bool, timeString: string) returns (text: string)
    requires ClassOf(o.mediaClass).Named()
    ensures text == ObjectText(o, filter, shown, e, timeString)
    ensures shown == ObjectFlags(o, filter) && AllMeasured(o.res) ==> |text| < ObjectSize(o, filter, e, false)
  {
    text := WriteHead(o, filter, e);
    if Has(shown, Filter.Res) {
      var resources := WriteResources(o.res, shown, e, timeString);
      text := text + resources;
    } else {
      assert text + "" == text;
    }
    hide HeadText, TailText, Has, Class.Named, ClassOf, ObjectSize, ObjectFlags, AllMeasured;
    text := WriteTail(text, o, shown, e);
    if shown == ObjectFlags(o, filter) && AllMeasured(o.res) {
      ObjectFits(o, filter, e, false, timeString);
    }
  }

  method WriteHead(o: MediaObject, filter: bv32, e: bool) returns (text: string)
    requires ClassOf(o.mediaClass).Named()
    ensures text == HeadText(o, filter, e)
  {
    hide StartText, Element, Escaped, ClassText, Class.Named, ClassOf;
    text := WriteStart(o, filter, e);
    text := WriteElement(text, "dc:title", Escaped(o.title.GetOr(""), e));
    var name := WriteClass(ClassOf(o.mediaClass));
    text := WriteElement(text, "upnp:class", name);
  }

  method WriteTail(before: string, o: MediaObject, shown: bv32, e: bool) returns (text: string)
    ensures text == before + TailText(o, shown, e)
  {
    hide FieldText, EndText;
    text := WriteField(before, "dc:creator", o.creator, shown, Filter.Creator, e);
    text := WriteField(text, "upnp:genre", o.genre, shown, Filter.Genre, e);
    text := WriteField(text, "upnp:album", o.album, shown, Filter.Album, e);
    text := text + EndText(IsContainer(o.mediaClass));
    FourPieces(before, FieldText("dc:creator", o.creator, shown, Filter.Creator, e),
               FieldText("upnp:genre", o.genre, shown, Filter.Genre, e),
               FieldText("upnp:album", o.album, shown, Filter.Album, e), EndText(IsContainer(o.mediaClass)));
  }

  lemma FourPieces(before: string, a: string, b: string, c: string, d: string)
    ensures before + a + b + c + d == before + (a + b + c + d)
  {
  }

  function Header(): (t: string)
    ensures |t| == 197
  {
    "&lt;DIDL-Lite xmlns=&quot;" + "urn:schemas-upnp-org:metadata-1-0/DIDL-Lite/"
    + "&quot; xmlns:dc=&quot;" + "http://purl.org/dc/elements/1.1/"
    + "&quot; xmlns:upnp=&quot;" + "urn:schemas-upnp-org:metadata-1-0/upnp/" + "&quot;&gt;"
  }

  function Footer(): (t: string)
    ensures |t| == 20
  {
    "\r\n&lt;/DIDL-Lite&gt;"
  }

  /** The text behind the header and what stands behind it in the buffer, which the reported length, that of
      the text, leaves out; or the error code, NULL being returned; or a read past a table of class names. */
  datatype Didl = Written(text: string, footer: string) | Error(code: int) | Fault

  const CorruptedMemory := -99

  /** The whole text, the optional header in front. */
  function DidlText(o: MediaObject, filter: bv32, e: bool, headerFooter: bool, time: string): string
    requires ClassOf(o.mediaClass).Named()
  {
    (if headerFooter then Header() else "") + ObjectText(o, filter, ObjectFlags(o, filter), e, time)
  }

  lemma DidlTextIs(o: MediaObject, filter: bv32, e: bool, headerFooter: bool, time: string)
    requires ClassOf(o.mediaClass).Named()
    ensures DidlText(o, filter, e, headerFooter, time) ==
      (if headerFooter then Header() else "") + ObjectText(o, filter, ObjectFlags(o, filter), e, time)
  {
    hide Header, ObjectText, ObjectFlags, Class.Named, ClassOf;
  }

  function FooterText(headerFooter: bool): string {
    if headerFooter then Footer() else ""
  }

  /** CdsToDidl_GetMediaObjectDidlEscaped for the bits that filter strings can ask for; timeString is what
      the uninitialised time buffer holds. */
  method GetMediaObjectDidlEscaped(o: MediaObject, e: bool, filter: bv32, headerFooter: bool, timeString: string)
    returns (r: Didl)
    requires filter & !Filter.Supported == 0
    ensures Check(o) != 0 ==> r == Error(Check(o))
    ensures Check(o) == 0 ==>
      if !ClassOf(o.mediaClass).Named() then r == Fault
      else
        var text, size := DidlText(o, filter, e, headerFooter, timeString), ObjectSize(o, filter, e, headerFooter);
        (r == if |text| < size then Written(text, FooterText(headerFooter)) else Error(CorruptedMemory))
        && (AllMeasured(o.res) ==> r.Written? && |r.text| + |r.footer| < size)
  {
    hide *;
    var s := ComputeSize(o, filter, e, headerFooter);
    SizingCases(o, filter, e, headerFooter);
    if s.Fits? && AllMeasured(o.res) {
      NeverCorrupted(o, filter, e, headerFooter, timeString);
    }
    if s.Failed? {
      return Error(s.code);
    }
    if s.PastTable? {
      return Fault;
    }
    var text := "";
    if headerFooter {
      text := Header();
    }
    var written := Write(o, filter, s.shown, e, timeString);
    text := text + written;
    DidlTextIs(o, filter, e, headerFooter, timeString);
    if |text| >= s.size {
      r := Error(CorruptedMemory);
    } else {
      r := Written(text, FooterText(headerFooter));
    }
  }

  lemma SizingCases(o: MediaObject, filter: bv32, e: bool, headerFooter: bool)
    ensures Check(o) != 0 ==> Sizing(o, filter, e, headerFooter) == Failed(Check(o))
    ensures Check(o) == 0 && !ClassOf(o.mediaClass).Named() ==> Sizing(o, filter, e, headerFooter) == PastTable
    ensures Check(o) == 0 && ClassOf(o.mediaClass).Named() ==>
      Sizing(o, filter, e, headerFooter) == Fits(ObjectSize(o, filter, e, headerFooter), ObjectFlags(o, filter))
  {
    hide ObjectSize, ObjectFlags, Class.Named, ClassOf, Check;
  }

  /** With measured resources the serialiser never reports corrupted memory, and the buffer of the computed
      size holds text, footer and terminator. */
  lemma NeverCorrupted(o: MediaObject, filter: bv32, e: bool, headerFooter: bool, time: string)
    requires ClassOf(o.mediaClass).Named() && AllMeasured(o.res)
    ensures
      |DidlText(o, filter, e, headerFooter, time)| + |FooterText(headerFooter)| < ObjectSize(o, filter, e, headerFooter)
  {
    hide ObjectText, ObjectSize, ObjectFlags, Header, Footer, ClassOf, Class.Named;
    ObjectFits(o, filter, e, headerFooter, time);
  }

  // ----- where the passes disagree

  lemma {:induction false} OtherAttributes(attributes: seq<Attribute>, r: Resource, bits: bv32, e: bool, time: string)
    requires forall k :: 0 <= k < |attributes| ==> !Has(bits, Flag(attributes[k]))
    ensures AttributesText(attributes, r, bits, e, time) == "" && AttributesRoom(attributes, r, bits, e) == 0
  {
    hide Flag, Has;
    if attributes != [] {
      OtherAttributes(attributes[1..], r, bits, e, time);
    }
  }

  lemma {:induction false} AttributesJoin(a: seq<Attribute>, b: seq<Attribute>, r: Resource, bits: bv32, e: bool,
                                          time: string)
    ensures AttributesText(a + b, r, bits, e, time) ==
      AttributesText(a, r, bits, e, time) + AttributesText(b, r, bits, e, time)
    ensures AttributesRoom(a + b, r, bits, e) == AttributesRoom(a, r, bits, e) + AttributesRoom(b, r, bits, e)
  {
    hide Flag, Has, AttributeText, Printed, Counted, Room;
    if a == [] {
      assert a + b == b;
    } else {
      assert (a + b)[1..] == a[1..] + b;
      AttributesJoin(a[1..], b, r, bits, e, time);
    }
  }

  /** The bits of a filter that asks for resources with this attribute alone. */
  function Only(a: Attribute): bv32 {
    Filter.Res | Flag(a)
  }

  const ResolutionOnly: bv32 := Only(Resolution)

  lemma OnlyHas(a: Attribute, b: Attribute)
    ensures Has(Only(a), Flag(b)) <==> a == b
  {
    match a
    case Bitrate => match b { case _ => }
    case BitsPerSample => match b { case _ => }
    case ColorDepth => match b { case _ => }
    case Duration => match b { case _ => }
    case NrAudioChannels => match b { case _ => }
    case Protection => match b { case _ => }
    case Resolution => match b { case _ => }
    case SampleFrequency => match b { case _ => }
    case Size => match b { case _ => }
  }

  function Position(a: Attribute): (i: nat)
    ensures i < |Attributes| && Attributes[i] == a
    ensures forall k :: 0 <= k < |Attributes| && k != i ==> Attributes[k] != a
  {
    match a
    case Bitrate => 0
    case BitsPerSample => 1
    case ColorDepth => 2
    case Duration => 3
    case NrAudioChannels => 4
    case Protection => 5
    case Resolution => 6
    case SampleFrequency => 7
    case Size => 8
  }

  /** With one attribute asked for, only that one is printed and counted. */
  lemma OneCost(a: Attribute, r: Resource, e: bool, time: string)
    ensures |AttributesText(Attributes, r, Only(a), e, time)| ==
      if Printed(a, r) then |AttributeText(a, r, e, time)| else 0
    ensures AttributesRoom(Attributes, r, Only(a), e) == if Counted(a, r) then Room(a, r, e) else 0
  {
    hide Has, Flag, Only, AttributeText, Room, Printed, Counted, Position, AttributesText, AttributesRoom;
    var i, bits := Position(a), Only(a);
    forall k | 0 <= k < |Attributes| && k != i ensures !Has(bits, Flag(Attributes[k])) {
      OnlyHas(a, Attributes[k]);
    }
    OnlyHas(a, a);
    OneOfMany(Attributes, i, r, bits, e, time);
    OneOf(a, r, bits, e, time);
  }

  lemma OneOfMany(attributes: seq<Attribute>, i: nat, r: Resource, bits: bv32, e: bool, time: string)
    requires i < |attributes| && forall k :: 0 <= k < |attributes| && k != i ==> !Has(bits, Flag(attributes[k]))
    ensures AttributesText(attributes, r, bits, e, time) == AttributesText([attributes[i]], r, bits, e, time)
    ensures AttributesRoom(attributes, r, bits, e) == AttributesRoom([attributes[i]], r, bits, e)
  {
    hide Has, Flag, AttributesText, AttributesRoom;
    var before, a, after := attributes[..i], [attributes[i]], attributes[i + 1..];
    OtherAttributes(before, r, bits, e, time);
    OtherAttributes(after, r, bits, e, time);
    AttributesJoin(before, a + after, r, bits, e, time);
    AttributesJoin(a, after, r, bits, e, time);
    assert before + (a + after) == attributes;
  }

  lemma OneOf(a: Attribute, r: Resource, bits: bv32, e: bool, time: string)
    ensures AttributesText([a], r, bits, e, time) ==
      if Printed(a, r) && Has(bits, Flag(a)) then AttributeText(a, r, e, time) else ""
    ensures AttributesRoom([a], r, bits, e) == if Counted(a, r) && Has(bits, Flag(a)) then Room(a, r, e) else 0
  {
    assert [a][1..] == [];
  }

  lemma OnlyOneFits(a: Attribute, r: Resource, e: bool, time: string)
    ensures |ResText(r, Only(a), e, time)| <= ResSize(r, Only(a), e) <==>
      (if Printed(a, r) then |AttributeText(a, r, e, time)| else 0) <= (if Counted(a, r) then Room(a, r, e) else 0)
  {
    OneCost(a, r, e, time);
    hide Only, AttributesText, AttributesRoom, AttributeText, Room, Printed, Counted, Escaped;
  }

  lemma WithinItself(bits: bv32)
    ensures Within(bits, bits)
  {
  }

  function Blanks(n: nat): (t: string)
    ensures |t| == n
  {
    seq(n, _ => ' ')
  }

  /** A resource that is not measured can overrun what is counted for it. */
  lemma UnmeasuredOverruns(r: Resource, e: bool) returns (filter: bv32, time: string)
    requires !Measured(r)
    ensures Within(filter, filter) && |ResText(r, filter, e, time)| > ResSize(r, filter, e)
  {
    time := Blanks(40);
    var a := if r.duration == 0 then Duration else Resolution;
    filter := Only(a);
    OnlyOneFits(a, r, e, time);
    WithinItself(filter);
    hide Only, ResText, ResSize, Within, Decimal, Blanks;
  }

  /** The text of a resource fits for every filter, escape mode and time buffer exactly when it is measured. */
  lemma FitsIffMeasured(r: Resource)
    ensures Measured(r) <==>
      forall shown, filter, e, time :: Within(shown, filter) ==> |ResText(r, shown, e, time)| <= ResSize(r, filter, e)
  {
    forall shown, filter, e, time | Measured(r) && Within(shown, filter)
      ensures |ResText(r, shown, e, time)| <= ResSize(r, filter, e) {
      ResFits(r, shown, filter, e, time);
    }
    if !Measured(r) {
      var filter, time := UnmeasuredOverruns(r, true);
    }
    hide Within, ResText, ResSize, Measured;
  }

  lemma OrHas(a: bv32, b: bv32, flag: bv32)
    ensures Has(a, flag) ==> Has(Filter.Or(a, b), flag)
    ensures Has(b, flag) ==> Has(Filter.Or(a, b), flag)
  {
    assert (a | b) & flag == (a & flag) | (b & flag);
  }

  lemma {:induction false} RaisedHas(attributes: seq<Attribute>, r: Resource, filter: bv32, a: Attribute)
    requires a in attributes && Counted(a, r) && Has(filter, Flag(a))
    ensures Has(Raised(attributes, r, filter), Flag(a))
  {
    hide Has, Flag, Counted, Filter.Or;
    var b := attributes[0];
    OrHas(if Counted(b, r) && Has(filter, Flag(b)) then Flag(b) else 0, Raised(attributes[1..], r, filter), Flag(a));
    if b != a {
      RaisedHas(attributes[1..], r, filter, a);
    } else {
      FlagHasItself(a);
    }
  }

  lemma FlagHasItself(a: Attribute)
    ensures Has(Flag(a), Flag(a))
  {
  }

  function Square(side: int32): Resource {
    Resource(None, "", side, side, -1, -1, -1, 0, -1, -1, -1, None)
  }

  function TwoSquares(): MediaObject {
    MediaObject(Some("1"), Some("0"), None, Some("t"), None, None, None, 1, 0, false, false, [Square(1), Square(0)])
  }

  lemma BothBits(shown: bv32)
    requires Within(shown, ResolutionOnly) && Has(shown, Filter.Res) && Has(shown, Filter.Resolution)
    ensures shown == ResolutionOnly
  {
  }

  lemma ResBit()
    ensures Has(ResolutionOnly, Filter.Res) && Has(Filter.Res, Filter.Res) && Flag(Resolution) == Filter.Resolution
  {
  }

  lemma SquaresFlags()
    ensures ObjectFlags(TwoSquares(), ResolutionOnly) == ResolutionOnly
  {
    var o := TwoSquares();
    OnlyHas(Resolution, Resolution);
    ResBit();
    hide Has, Flag, Within, ObjectFlags;
    ObjectFlagsWithin(o, ResolutionOnly);
    ObjectFlagsHave(o, ResolutionOnly, Resolution, 0);
    BothBits(ObjectFlags(o, ResolutionOnly));
  }

  lemma {:induction false} AllRaisedHas(rs: seq<Resource>, filter: bv32, a: Attribute, k: nat)
    requires k < |rs| && Counted(a, rs[k]) && Has(filter, Flag(a))
    ensures Has(AllRaised(rs, filter), Flag(a))
  {
    hide Has, Flag, Counted, Filter.Or, Raised;
    var init, r := rs[..|rs| - 1], rs[|rs| - 1];
    OrHas(AllRaised(init, filter), Raised(Attributes, r, filter), Flag(a));
    if k == |rs| - 1 {
      assert Attributes[Position(a)] == a;
      RaisedHas(Attributes, r, filter, a);
    } else {
      AllRaisedHas(init, filter, a, k);
    }
  }

  lemma ObjectFlagsHave(o: MediaObject, filter: bv32, a: Attribute, k: nat)
    requires k < |o.res| && Counted(a, o.res[k]) && Has(filter, Flag(a)) && Has(filter, Filter.Res)
    ensures Has(ObjectFlags(o, filter), Flag(a)) && Has(ObjectFlags(o, filter), Filter.Res)
  {
    ResBit();
    hide Has, Flag, Counted, Filter.Or, AllRaised, FixedFlags;
    var raised, fixed := AllRaised(o.res, filter), FixedFlags(o, filter);
    AllRaisedHas(o.res, filter, a, k);
    OrHas(fixed, Filter.Res, Filter.Res);
    OrHas(Filter.Or(fixed, Filter.Res), raised, Flag(a));
    OrHas(Filter.Or(fixed, Filter.Res), raised, Filter.Res);
  }

  /** A resource with the resolution alone: 24 bytes around the text of its sides. */
  lemma SquareCost(side: int32, e: bool, time: string)
    requires 0 <= side < 10
    ensures |ResText(Square(side), ResolutionOnly, e, time)| + (if side == 0 then 0 else 48)
      == ResSize(Square(side), ResolutionOnly, e) + 27
  {
    var r := Square(side);
    OneCost(Resolution, r, e, time);
    assert |Value(Resolution, r, e, time)| == 3 by {
      assert |Decimal(side)| == 1;
    }
    hide AttributesText, AttributesRoom, Value, Escaped;
  }

  /** One resource with sides 0 behind another with sides 1: 27 bytes too many against the 26 to spare, and
      the serialiser gives up with the error of corrupted memory. */
  lemma ZeroHeightOverruns(e: bool, time: string)
    ensures var o := TwoSquares();
      Check(o) == 0 && ClassOf(o.mediaClass).Named()
      && |ObjectText(o, ResolutionOnly, ObjectFlags(o, ResolutionOnly), e, time)|
         >= ObjectSize(o, ResolutionOnly, e, false)
  {
    var o, rs := TwoSquares(), [Square(1), Square(0)];
    SquaresFlags();
    assert Has(ResolutionOnly, Filter.Res);
    SquaresCost(e, time);
    SquaresFixed(e);
    hide Has, HeadText, TailText, FixedSize, ResourcesText, ResourcesSize, ObjectFlags;
  }

  lemma SquaresCost(e: bool, time: string)
    ensures |ResourcesText([Square(1), Square(0)], ResolutionOnly, e, time)|
      == ResourcesSize([Square(1), Square(0)], ResolutionOnly, e) + 6
  {
    var rs := [Square(1), Square(0)];
    assert rs[..1] == [Square(1)] && [Square(1)][..0] == [];
    hide ResText, ResSize, Square, TimeAfter;
    assert ResourcesText([], ResolutionOnly, e, time) == "" && ResourcesSize([], ResolutionOnly, e) == 0;
    assert |ResourcesText([Square(1)], ResolutionOnly, e, time)|
      == |ResText(Square(1), ResolutionOnly, e, TimeAfter([], ResolutionOnly, time))|;
    assert ResourcesSize([Square(1)], ResolutionOnly, e) == ResSize(Square(1), ResolutionOnly, e);
    SquareCost(1, e, TimeAfter([], ResolutionOnly, time));
    SquareCost(0, e, TimeAfter([Square(1)], ResolutionOnly, time));
  }

  lemma SquaresFixed(e: bool)
    ensures Check(TwoSquares()) == 0 && ClassOf(1).Named()
    ensures |HeadText(TwoSquares(), ResolutionOnly, e)| + |TailText(TwoSquares(), ResolutionOnly, e)| + 5
      == FixedSize(TwoSquares(), ResolutionOnly, e)
  {
    var o := TwoSquares();
    assert ClassOf(1) == Class(1, 0, 0, 0);
    assert ClassText(Class(1, 0, 0, 0)) == "object.item";
    assert |StartText(o, ResolutionOnly, e)| == 77 + |Escaped("1", e)| + |Escaped("0", e)| by {
      hide Escaped;
    }
    assert Escaped("", e) == "";
    hide Escaped, StartText, ClassText, Element;
    ElementLength("dc:title", Escaped("t", e));
    ElementLength("upnp:class", "object.item");
  }
}
