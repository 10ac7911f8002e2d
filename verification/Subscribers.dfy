/** The event subscriptions of the UPnP device: a doubly linked list of subscribers per service, whose
    records are shared with the notifications in flight by a reference count. */
module Subscribers {
  import Numbers

  const MAX_UPNP_SUBSCRIBERS := 100
  const MAX_SUBSCRIBED := 10
  const MAX_SID := 64

  datatype Service = ConnectionManager | ContentDirectory

  /** What a subscriber record says, apart from its links. A freed record must not be touched. */
  datatype Record = Record(seqNo: int, refs: int, freed: bool)

  /** A NOTIFY message handed to the event client, and the container waiting for its delivery. */
  datatype Notice = Notice(sid: string, seqNo: int)
  datatype Container = Container(sid: string, disposing: bool)

  datatype Table = Table(
    cm: seq<string>,
    cd: seq<string>,
    records: map<string, Record>,
    containers: seq<Container>,
    sent: seq<Notice>,
    lastSid: nat)
  {
    function Of(s: Service): seq<string> {
      if s.ConnectionManager? then cm else cd
    }

    function With(s: Service, sids: seq<string>): Table {
      if s.ConnectionManager? then this.(cm := sids) else this.(cd := sids)
    }

    predicate Linked(sid: string) {
      sid in cm || sid in cd
    }
  }

  const NoSubscribers := Table([], [], map[], [], [], 0)

  function Sid(n: nat): string {
    "uuid:" + Numbers.PrintNat(n, 10)
  }

  // ----- what each operation does

  /** UpnpSendEvent_Body to one subscriber. */
  function Notify(t: Table, sid: string): Table {
    if sid !in t.records then t
    else
      var r := t.records[sid];
      t.(records := t.records[sid := r.(seqNo := r.seqNo + 1, refs := r.refs + 1)],
         containers := t.containers + [Container(sid, false)],
         sent := t.sent + [Notice(sid, r.seqNo)])
  }

  function NotifyAll(t: Table, sids: seq<string>): Table
    decreases |sids|
  {
    if sids == [] then t else NotifyAll(Notify(t, sids[0]), sids[1..])
  }

  /** One reference less; the record is freed with the last one. */
  function Release(t: Table, sid: string): Table {
    if sid !in t.records then t
    else
      var r := t.records[sid];
      t.(records := t.records[sid := r.(refs := r.refs - 1, freed := r.freed || r.refs == 1)])
  }

  /** UpnpTryToSubscribe: the SID is spent even when the callback has no usable address. */
  function Subscribe(t: Table, s: Service, addressable: bool): Table {
    if |t.Of(s)| >= MAX_SUBSCRIBED then t
    else
      if addressable then Notify(Enrol(t, s), Sid(t.lastSid + 1)) else t.(lastSid := t.lastSid + 1)
  }

  /** A new record under the next SID, at the head of its list. */
  function Enrol(t: Table, s: Service): Table {
    var sid := Sid(t.lastSid + 1);
    t.(lastSid := t.lastSid + 1, records := t.records[sid := Record(0, 1, false)]).With(s, [sid] + t.Of(s))
  }

  function Without(sids: seq<string>, sid: string): (r: seq<string>)
    ensures |r| <= |sids|
  {
    if sids == [] then []
    else if sids[0] == sid then sids[1..]
    else [sids[0]] + Without(sids[1..], sid)
  }

  /** What UpnpRemoveSubscriberInfo finds: outside the SID lengths it accepts, the head. */
  predicate Acceptable(sid: string) {
    0 < |sid| <= MAX_SID
  }

  function Unsubscribe(t: Table, s: Service, sid: string): Table {
    if t.Of(s) == [] then t
    else if !Acceptable(sid) then Release(t, t.Of(s)[0])
    else if sid !in t.Of(s) then t
    else Release(t.With(s, Without(t.Of(s), sid)), sid)
  }

  /** UpnpSendEventSink for a container whose message was answered. */
  function Deliver(t: Table, c: nat, done: bool): Table
    requires c < |t.containers|
  {
    if !done || t.containers[c].disposing then t
    else Release(t.(containers := t.containers[c := t.containers[c].(disposing := true)]), t.containers[c].sid)
  }

  // ----- what every run keeps

  function Undelivered(cs: seq<Container>, sid: string): nat {
    if cs == [] then 0
    else Undelivered(cs[..|cs| - 1], sid) + (if cs[|cs| - 1] == Container(sid, false) then 1 else 0)
  }

  function SentTo(ns: seq<Notice>, sid: string): nat {
    if ns == [] then 0
    else SentTo(ns[..|ns| - 1], sid) + (if ns[|ns| - 1].sid == sid then 1 else 0)
  }

  function References(t: Table, sid: string): nat {
    (if t.Linked(sid) then 1 else 0) + Undelivered(t.containers, sid)
  }

  ghost predicate Distinct(sids: seq<string>) {
    forall j, k :: 0 <= j < k < |sids| ==> sids[j] != sids[k]
  }

  /** A list has at most ten subscribers, none twice, all with records. */
  ghost predicate ListFine(t: Table, sids: seq<string>) {
    |sids| <= MAX_SUBSCRIBED && Distinct(sids) && forall k :: 0 <= k < |sids| ==> sids[k] in t.records
  }

  ghost predicate ListsFine(t: Table) {
    && ListFine(t, t.cm) && ListFine(t, t.cd)
    && (forall sid :: sid in t.cm ==> sid !in t.cd)
    && (forall k :: 0 <= k < |t.containers| ==> t.containers[k].sid in t.records)
  }

  ghost predicate SidsFine(t: Table) {
    && (forall n :: n > t.lastSid ==> Sid(n) !in t.records)
    && (forall k :: 0 <= k < |t.sent| ==> t.sent[k].sid in t.records)
  }

  ghost predicate CountsFine(t: Table) {
    forall sid :: sid in t.records ==> t.records[sid].refs == References(t, sid)
  }

  /** A record is freed exactly when nothing refers to it any more. */
  ghost predicate FreedFine(t: Table) {
    forall sid :: sid in t.records ==> (t.records[sid].freed <==> References(t, sid) == 0)
  }

  /** The messages of one subscriber are numbered 0, 1, 2, ... and SEQ is the next number. */
  ghost predicate Numbered(t: Table) {
    && (forall sid :: sid in t.records ==> t.records[sid].seqNo == SentTo(t.sent, sid))
    && (forall k :: 0 <= k < |t.sent| ==> t.sent[k].seqNo == SentTo(t.sent[..k], t.sent[k].sid))
  }

  ghost predicate Sound(t: Table) {
    ListsFine(t) && SidsFine(t) && CountsFine(t) && FreedFine(t) && Numbered(t)
  }

  lemma {:induction false} SidsDiffer(m: nat, n: nat)
    requires Sid(m) == Sid(n)
    ensures m == n
  {
    assert Sid(m)[5..] == Numbers.PrintNat(m, 10) && Sid(n)[5..] == Numbers.PrintNat(n, 10);
    Numbers.PrintInjective(m, n, 10);
  }

  /** The SID of any 32-bit counter fits its 16 bytes with the terminator. */
  lemma {:induction false} SidFits(n: nat)
    requires n <= Numbers.INT_MAX
    ensures 0 < |Sid(n)| < 10 + 6 && Acceptable(Sid(n))
  {
    assert Numbers.Power(10, 10) == 10_000_000_000 by {
      assert Numbers.Power(10, 4) == 10_000;
      assert Numbers.Power(10, 8) == 100_000_000;
    }
    Numbers.PrintedLength(n, 10, 10);
  }

  lemma UndeliveredMore(cs: seq<Container>, c: Container, sid: string)
    ensures Undelivered(cs + [c], sid) == Undelivered(cs, sid) + if c == Container(sid, false) then 1 else 0
  {
    assert (cs + [c])[..|cs|] == cs;
  }

  lemma {:induction false} UndeliveredOneLess(cs: seq<Container>, c: nat, sid: string)
    requires c < |cs| && !cs[c].disposing
    ensures var ds := cs[c := cs[c].(disposing := true)];
      Undelivered(ds, sid) == Undelivered(cs, sid) - if cs[c].sid == sid then 1 else 0
  {
    var ds := cs[c := cs[c].(disposing := true)];
    var last := |cs| - 1;
    if c == last {
      assert ds[..last] == cs[..last];
    } else {
      assert ds[..last] == cs[..last][c := cs[c].(disposing := true)];
      UndeliveredOneLess(cs[..last], c, sid);
    }
  }

  lemma {:induction false} NoneUndelivered(cs: seq<Container>, sid: string)
    requires forall k :: 0 <= k < |cs| ==> cs[k].sid != sid
    ensures Undelivered(cs, sid) == 0
  {
    if cs != [] {
      NoneUndelivered(cs[..|cs| - 1], sid);
    }
  }

  lemma {:induction false} NoneSent(ns: seq<Notice>, sid: string)
    requires forall k :: 0 <= k < |ns| ==> ns[k].sid != sid
    ensures SentTo(ns, sid) == 0
  {
    if ns != [] {
      NoneSent(ns[..|ns| - 1], sid);
    }
  }

  lemma SentMore(ns: seq<Notice>, n: Notice, sid: string)
    ensures SentTo(ns + [n], sid) == SentTo(ns, sid) + if n.sid == sid then 1 else 0
  {
    assert (ns + [n])[..|ns|] == ns;
  }

  lemma {:induction false} NotifyKeeps(t: Table, sid: string)
    requires Sound(t) && t.Linked(sid)
    ensures Sound(Notify(t, sid)) && Notify(t, sid).cm == t.cm && Notify(t, sid).cd == t.cd
    ensures !t.records[sid].freed
  {
    hide ListsFine, SidsFine, Numbered, Undelivered;
    var u := Notify(t, sid);
    NotifyLists(t, sid);
    forall id ensures References(u, id) == References(t, id) + if id == sid then 1 else 0 {
      UndeliveredMore(t.containers, Container(sid, false), id);
    }
    NotifyNumbers(t, sid);
  }

  lemma NotifyLists(t: Table, sid: string)
    requires ListsFine(t) && SidsFine(t) && t.Linked(sid)
    ensures ListsFine(Notify(t, sid)) && SidsFine(Notify(t, sid)) && sid in t.records
  {
    hide Sid, Distinct;
  }

  lemma {:induction false} NotifyNumbers(t: Table, sid: string)
    requires Numbered(t) && sid in t.records
    ensures Numbered(Notify(t, sid))
  {
    var u := Notify(t, sid);
    var n := Notice(sid, t.records[sid].seqNo);
    forall id ensures SentTo(u.sent, id) == SentTo(t.sent, id) + if id == sid then 1 else 0 {
      SentMore(t.sent, n, id);
    }
    forall k | 0 <= k < |u.sent| ensures u.sent[k].seqNo == SentTo(u.sent[..k], u.sent[k].sid) {
      assert u.sent[..k] == t.sent[..k] && (k < |t.sent| ==> u.sent[k] == t.sent[k]);
      assert t.sent[..|t.sent|] == t.sent;
    }
    hide SentTo;
  }

  lemma {:induction false} NotifyAllKeeps(t: Table, sids: seq<string>)
    requires Sound(t) && forall k :: 0 <= k < |sids| ==> t.Linked(sids[k])
    ensures Sound(NotifyAll(t, sids)) && NotifyAll(t, sids).cm == t.cm && NotifyAll(t, sids).cd == t.cd
    decreases |sids|
  {
    if sids != [] {
      NotifyKeeps(t, sids[0]);
      hide Sound, Notify;
      NotifyAllKeeps(Notify(t, sids[0]), sids[1..]);
    }
  }

  lemma {:induction false} EnrolKeeps(t: Table, s: Service)
    requires Sound(t) && |t.Of(s)| < MAX_SUBSCRIBED
    ensures Sound(Enrol(t, s)) && Enrol(t, s).Linked(Sid(t.lastSid + 1))
  {
    var sid, u := Sid(t.lastSid + 1), Enrol(t, s);
    assert sid !in t.records;
    NoneUndelivered(t.containers, sid);
    NoneSent(t.sent, sid);
    EnrolLists(t, s);
    assert CountsFine(u) && FreedFine(u) && Numbered(u) by {
      hide Sid, ListsFine, SidsFine, Undelivered, SentTo;
      assert References(u, sid) == 1;
      assert forall id :: id in t.records ==> References(u, id) == References(t, id);
      hide References;
    }
  }

  lemma {:induction false} EnrolLists(t: Table, s: Service)
    requires ListsFine(t) && SidsFine(t) && |t.Of(s)| < MAX_SUBSCRIBED
    ensures ListsFine(Enrol(t, s)) && SidsFine(Enrol(t, s)) && Enrol(t, s).Linked(Sid(t.lastSid + 1))
  {
    var sid, u := Sid(t.lastSid + 1), Enrol(t, s);
    assert sid !in t.records;
    forall n | n > u.lastSid ensures Sid(n) !in u.records {
      if Sid(n) == sid { SidsDiffer(n, t.lastSid + 1); }
    }
    hide Sid;
  }

  lemma {:induction false} SubscribeKeeps(t: Table, s: Service, addressable: bool)
    requires Sound(t)
    ensures Sound(Subscribe(t, s, addressable))
  {
    if |t.Of(s)| < MAX_SUBSCRIBED {
      if addressable {
        EnrolKeeps(t, s);
        NotifyKeeps(Enrol(t, s), Sid(t.lastSid + 1));
        hide Sound;
      }
    }
  }

  /** Once a reference to the record is gone, dropping the count restores the invariant. */
  lemma {:induction false} ReleaseKeeps(t: Table, u: Table, sid: string)
    requires Sound(t) && sid in t.records && u.records == t.records && u.sent == t.sent && u.lastSid == t.lastSid
    requires ListsFine(u)
    requires forall id :: References(u, id) == References(t, id) - if id == sid then 1 else 0
    ensures Sound(Release(u, sid)) && !t.records[sid].freed
    ensures Release(u, sid).records[sid].freed <==> References(u, sid) == 0
  {
    hide Undelivered, SentTo, Sid;
    var v := Release(u, sid);
    assert forall id :: References(v, id) == References(u, id);
    assert References(u, sid) >= 0;
    hide References;
  }

  lemma {:induction false} WithoutParts(sids: seq<string>, sid: string)
    requires Distinct(sids) && sid in sids
    ensures var r := Without(sids, sid);
      Distinct(r) && |r| == |sids| - 1 && sid !in r && forall id :: id != sid ==> (id in r <==> id in sids)
  {
    assert sids == [sids[0]] + sids[1..];
    if sids[0] != sid {
      WithoutParts(sids[1..], sid);
      assert sids[0] !in sids[1..];
    }
  }

  /** Unsubscribing keeps the invariant for every SID of 1 to 64 characters. A longer or empty one
      drops a reference of the head subscriber, which stays in the list. */
  lemma {:induction false} UnsubscribeKeeps(t: Table, s: Service, sid: string)
    requires Sound(t)
    ensures Sound(Unsubscribe(t, s, sid)) <==> Acceptable(sid) || t.Of(s) == []
  {
    if t.Of(s) != [] {
      if !Acceptable(sid) {
        ReleaseBreaks(t, t.Of(s)[0]);
      } else if sid in t.Of(s) {
        var u := CutKeeps(t, s, sid);
        hide ListsFine, Without, SidsFine, CountsFine, FreedFine, Numbered, References;
        ReleaseKeeps(t, u, sid);
        hide Release, Sound;
      }
    }
  }

  lemma {:induction false} CutKeeps(t: Table, s: Service, sid: string) returns (u: Table)
    requires ListsFine(t) && sid in t.Of(s)
    ensures u == t.With(s, Without(t.Of(s), sid)) && ListsFine(u) && sid in t.records
    ensures forall id :: References(u, id) == References(t, id) - if id == sid then 1 else 0
  {
    u := t.With(s, Without(t.Of(s), sid));
    WithoutParts(t.Of(s), sid);
    var r := Without(t.Of(s), sid);
    forall k | 0 <= k < |r| ensures r[k] in t.records && (r[k] in t.Of(s)) {
      assert r[k] in r;
    }
    hide Without, Undelivered;
  }

  lemma {:induction false} ReleaseBreaks(t: Table, sid: string)
    requires Sound(t) && sid in t.records
    ensures !Sound(Release(t, sid))
  {
    var u := Release(t, sid);
    assert References(u, sid) == References(t, sid);
    assert u.records[sid].refs != References(u, sid);
    assert !CountsFine(u);
  }

  lemma {:induction false} DeliverKeeps(t: Table, c: nat, done: bool)
    requires Sound(t) && c < |t.containers|
    ensures Sound(Deliver(t, c, done))
  {
    if done && !t.containers[c].disposing {
      var sid := t.containers[c].sid;
      var u := t.(containers := t.containers[c := t.containers[c].(disposing := true)]);
      forall id ensures References(u, id) == References(t, id) - if id == sid then 1 else 0 {
        UndeliveredOneLess(t.containers, c, id);
      }
      assert ListsFine(u);
      hide References, ListsFine, Undelivered;
      ReleaseKeeps(t, u, sid);
      hide Sound, Release;
    }
  }

  // ----- runs

  datatype Event =
    | Subscribing(service: Service, addressable: bool)
    | Unsubscribing(service: Service, sid: string)
    | Publishing(service: Service)
    | Delivered(container: nat, done: bool)

  function Step(t: Table, e: Event): Table {
    match e
    case Subscribing(s, addressable) => Subscribe(t, s, addressable)
    case Unsubscribing(s, sid) => Unsubscribe(t, s, sid)
    case Publishing(s) => NotifyAll(t, t.Of(s))
    case Delivered(c, done) => if c < |t.containers| then Deliver(t, c, done) else t
  }

  function Run(t: Table, events: seq<Event>): Table {
    if events == [] then t else Step(Run(t, events[..|events| - 1]), events[|events| - 1])
  }

  lemma {:induction false} StepKeeps(t: Table, e: Event)
    requires Sound(t) && (e.Unsubscribing? ==> Acceptable(e.sid))
    ensures Sound(Step(t, e))
  {
    match e
    case Subscribing(s, addressable) => SubscribeKeeps(t, s, addressable);
    case Unsubscribing(s, sid) => UnsubscribeKeeps(t, s, sid);
    case Publishing(s) => NotifyAllKeeps(t, t.Of(s));
    case Delivered(c, done) => if c < |t.containers| { DeliverKeeps(t, c, done); }
  }

  /** Over every run with well-formed SIDs the table stays sound. */
  lemma {:induction false} RunKeeps(events: seq<Event>)
    requires forall k :: 0 <= k < |events| && events[k].Unsubscribing? ==> Acceptable(events[k].sid)
    ensures Sound(Run(NoSubscribers, events))
  {
    if events == [] {
    } else {
      var init := events[..|events| - 1];
      RunKeeps(init);
      StepKeeps(Run(NoSubscribers, init), events[|events| - 1]);
    }
  }

  /** No step ever touches a freed record again. */
  lemma {:induction false} FreedIsFinal(t: Table, e: Event, sid: string)
    requires Sound(t) && (e.Unsubscribing? ==> Acceptable(e.sid))
    requires sid in t.records && t.records[sid].freed
    ensures sid in Step(t, e).records && Step(t, e).records[sid] == t.records[sid]
  {
    assert !t.Linked(sid) && Undelivered(t.containers, sid) == 0;
    match e
    case Subscribing(s, addressable) =>
      assert Sid(t.lastSid + 1) !in t.records;
    case Unsubscribing(s, id) =>
      assert id == sid ==> sid !in t.Of(s);
    case Publishing(s) =>
      hide Sound;
      NotifyAllSpares(t, t.Of(s), sid);
    case Delivered(c, done) =>
      if c < |t.containers| && t.containers[c] == Container(sid, false) {
        UndeliveredOneLess(t.containers, c, sid);
      }
  }

  lemma {:induction false} NotifyAllSpares(t: Table, sids: seq<string>, sid: string)
    requires sid !in sids && sid in t.records
    ensures sid in NotifyAll(t, sids).records && NotifyAll(t, sids).records[sid] == t.records[sid]
    decreases |sids|
  {
    if sids != [] {
      NotifyAllSpares(Notify(t, sids[0]), sids[1..], sid);
    }
  }

  // ----- who gets what

  /** One message and one container for every SID, in order, numbered as their records say. */
  ghost predicate Reached(t: Table, u: Table, sids: seq<string>) {
    && |u.sent| == |t.sent| + |sids| && u.sent[..|t.sent|] == t.sent
    && |u.containers| == |t.containers| + |sids| && u.containers[..|t.containers|] == t.containers
    && forall k :: 0 <= k < |sids| ==>
      && sids[k] in t.records && u.sent[|t.sent| + k] == Notice(sids[k], t.records[sids[k]].seqNo)
      && u.containers[|t.containers| + k] == Container(sids[k], false)
  }

  lemma {:induction false} AllReached(t: Table, sids: seq<string>)
    requires Distinct(sids) && forall k :: 0 <= k < |sids| ==> sids[k] in t.records
    ensures Reached(t, NotifyAll(t, sids), sids)
    decreases |sids|
  {
    if sids != [] {
      var t1, rest := Notify(t, sids[0]), sids[1..];
      AllReached(t1, rest);
      var u := NotifyAll(t1, rest);
      assert u == NotifyAll(t, sids);
      hide NotifyAll;
      forall k | 0 <= k < |sids|
        ensures u.sent[|t.sent| + k] == Notice(sids[k], t.records[sids[k]].seqNo)
        ensures u.containers[|t.containers| + k] == Container(sids[k], false)
      {
        if k == 0 {
          assert u.sent[..|t1.sent|][|t.sent|] == u.sent[|t.sent|];
          assert u.containers[..|t1.containers|][|t.containers|] == u.containers[|t.containers|];
        } else {
          assert rest[k - 1] == sids[k] && sids[0] != sids[k];
        }
      }
      assert u.sent[..|t.sent|] == u.sent[..|t1.sent|][..|t.sent|];
      assert u.containers[..|t.containers|] == u.containers[..|t1.containers|][..|t.containers|];
    }
  }

  /** An event reaches every subscriber of the service once, in list order and with its next number, and
      nobody else. */
  lemma PublishReaches(t: Table, s: Service)
    requires Sound(t)
    ensures Reached(t, Step(t, Publishing(s)), t.Of(s))
    ensures forall sid ::
      SentTo(Step(t, Publishing(s)).sent, sid) == SentTo(t.sent, sid) + if sid in t.Of(s) then 1 else 0
    ensures forall sid ::
      Undelivered(Step(t, Publishing(s)).containers, sid)
      == Undelivered(t.containers, sid) + if sid in t.Of(s) then 1 else 0
  {
    hide NotifyAll, Sound, Reached, Distinct, SentTo, Undelivered;
    var sids, u := t.Of(s), Step(t, Publishing(s));
    ListsAreDistinct(t, s);
    AllReached(t, sids);
    forall sid
      ensures SentTo(u.sent, sid) == SentTo(t.sent, sid) + if sid in sids then 1 else 0
      ensures Undelivered(u.containers, sid) == Undelivered(t.containers, sid) + if sid in sids then 1 else 0
    {
      CountAll(t, u, sids, sid);
    }
  }

  lemma CountAll(t: Table, u: Table, sids: seq<string>, sid: string)
    requires Reached(t, u, sids) && Distinct(sids)
    ensures SentTo(u.sent, sid) == SentTo(t.sent, sid) + if sid in sids then 1 else 0
    ensures Undelivered(u.containers, sid) == Undelivered(t.containers, sid) + if sid in sids then 1 else 0
  {
    CountMore(t, u, sids, sid, |sids|);
    hide Distinct, SentTo, Undelivered;
    assert u.sent[..|t.sent| + |sids|] == u.sent && u.containers[..|t.containers| + |sids|] == u.containers;
    assert sids[..|sids|] == sids;
  }

  lemma ListsAreDistinct(t: Table, s: Service)
    requires Sound(t)
    ensures Distinct(t.Of(s)) && forall k :: 0 <= k < |t.Of(s)| ==> t.Of(s)[k] in t.records
  {
  }

  lemma {:induction false} CountMore(t: Table, u: Table, sids: seq<string>, sid: string, n: nat)
    requires Reached(t, u, sids) && Distinct(sids) && n <= |sids|
    ensures SentTo(u.sent[..|t.sent| + n], sid) == SentTo(t.sent, sid) + if sid in sids[..n] then 1 else 0
    ensures Undelivered(u.containers[..|t.containers| + n], sid)
      == Undelivered(t.containers, sid) + if sid in sids[..n] then 1 else 0
  {
    hide Reached, Distinct, SentTo, Undelivered;
    ReachedUpTo(t, u, sids, n);
    if n > 0 {
      CountMore(t, u, sids, sid, n - 1);
      var k := n - 1;
      SentMore(u.sent[..|t.sent| + k], u.sent[|t.sent| + k], sid);
      UndeliveredMore(u.containers[..|t.containers| + k], u.containers[|t.containers| + k], sid);
    }
  }

  lemma ReachedUpTo(t: Table, u: Table, sids: seq<string>, n: nat)
    requires Reached(t, u, sids) && Distinct(sids) && n <= |sids|
    ensures |u.sent| == |t.sent| + |sids| && |u.containers| == |t.containers| + |sids|
    ensures n == 0 ==> u.sent[..|t.sent|] == t.sent && u.containers[..|t.containers|] == t.containers
    ensures n > 0 ==>
      var k := n - 1;
      var i, j := |t.sent| + k, |t.containers| + k;
      && sids[..n] == sids[..k] + [sids[k]] && sids[k] !in sids[..k]
      && u.sent[..i + 1] == u.sent[..i] + [u.sent[i]] && u.sent[i].sid == sids[k]
      && u.containers[..j + 1] == u.containers[..j] + [u.containers[j]] && u.containers[j] == Container(sids[k], false)
  {
  }

  /** A new subscriber stands at the head of its list, its record is new, and the initial event is its message
      number 0; without room or address nobody gets anything and no list changes. */
  lemma SubscribeReaches(t: Table, s: Service, addressable: bool)
    requires Sound(t)
    ensures Step(t, Subscribing(s, addressable)).lastSid == t.lastSid + if |t.Of(s)| < 10 then 1 else 0
    ensures var u, sid := Step(t, Subscribing(s, addressable)), "uuid:" + Numbers.PrintNat(t.lastSid + 1, 10);
      if |t.Of(s)| < 10 && addressable then
        && sid !in t.records && u.Of(s) == [sid] + t.Of(s)
        && (forall other :: other != s ==> u.Of(other) == t.Of(other))
        && u.sent == t.sent + [Notice(sid, 0)] && u.containers == t.containers + [Container(sid, false)]
        && forall id :: id in t.records ==> id in u.records && u.records[id] == t.records[id]
      else
        u.sent == t.sent && u.containers == t.containers && u.records == t.records && u.cm == t.cm && u.cd == t.cd
  {
    assert Sid(t.lastSid + 1) !in t.records;
    hide Numbers.PrintNat, CountsFine, FreedFine, Numbered, ListsFine;
  }

  /** Unsubscribing takes the SID from the list of the service, keeps the others in order, and sends nothing;
      a SID of 1 to 64 characters that is not in the list changes nothing. */
  lemma UnsubscribeTakes(t: Table, s: Service, sid: string)
    requires Sound(t) && 0 < |sid| <= 64
    ensures var u := Step(t, Unsubscribing(s, sid));
      && u.sent == t.sent && u.containers == t.containers
      && (forall other :: other != s ==> u.Of(other) == t.Of(other))
      && (sid !in t.Of(s) ==> u == t)
      && (sid in t.Of(s) ==>
            && sid !in u.Of(s)
            && exists i :: 0 <= i < |t.Of(s)| && t.Of(s)[i] == sid && u.Of(s) == t.Of(s)[..i] + t.Of(s)[i + 1..])
  {
    var sids := t.Of(s);
    if sid in sids {
      ListsAreDistinct(t, s);
      var i :| 0 <= i < |sids| && sids[i] == sid;
      WithoutAt(sids, sid, i);
      WithoutParts(sids, sid);
      hide Sound, Without;
    }
  }

  /** A message that is answered is undelivered no more, and its container is done with; its subscriber's record
      is freed if that was the last that referred to it. Nothing else happens. */
  lemma DeliverTakes(t: Table, c: nat)
    requires Sound(t) && c < |t.containers|
    ensures Step(t, Delivered(c, false)) == t
    ensures t.containers[c].disposing ==> Step(t, Delivered(c, true)) == t
    ensures !t.containers[c].disposing ==>
      var u, sid := Step(t, Delivered(c, true)), t.containers[c].sid;
      && u.containers == t.containers[c := Container(sid, true)]
      && u.sent == t.sent && u.cm == t.cm && u.cd == t.cd && u.records.Keys == t.records.Keys
      && (forall id :: id in t.records && id != sid ==> u.records[id] == t.records[id])
      && sid in t.records && !t.records[sid].freed && u.records[sid].refs == t.records[sid].refs - 1
      && (u.records[sid].freed <==> sid !in t.cm && sid !in t.cd && Undelivered(t.containers, sid) == 1)
  {
    if !t.containers[c].disposing {
      var sid := t.containers[c].sid;
      UndeliveredOneLess(t.containers, c, sid);
      hide Undelivered, SidsFine, Numbered, Distinct;
    }
  }

  predicate Due(t: Table, e: Event, sid: string) {
    match e
    case Subscribing(s, addressable) =>
      |t.Of(s)| < 10 && addressable && sid == "uuid:" + Numbers.PrintNat(t.lastSid + 1, 10)
    case Publishing(s) => sid in t.Of(s)
    case _ => false
  }

  /** How many messages a run owes a subscriber: the initial event, and one for every event that is published
      while it is in the list of the service. */
  function Owed(events: seq<Event>, sid: string): nat {
    if events == [] then 0
    else
      var init, e := events[..|events| - 1], events[|events| - 1];
      Owed(init, sid) + if Due(Run(NoSubscribers, init), e, sid) then 1 else 0
  }

  /** Over every run every subscriber is sent exactly what it is owed. */
  lemma {:induction false} RunReaches(events: seq<Event>, sid: string)
    requires forall k :: 0 <= k < |events| && events[k].Unsubscribing? ==> Acceptable(events[k].sid)
    ensures SentTo(Run(NoSubscribers, events).sent, sid) == Owed(events, sid)
  {
    if events != [] {
      var init, e := events[..|events| - 1], events[|events| - 1];
      var t := Run(NoSubscribers, init);
      RunReaches(init, sid);
      RunKeeps(init);
      hide Run, Sound, SentTo;
      OneStepReaches(t, e, sid);
    }
  }

  lemma OneStepReaches(t: Table, e: Event, sid: string)
    requires Sound(t) && (e.Unsubscribing? ==> Acceptable(e.sid))
    ensures SentTo(Step(t, e).sent, sid) == SentTo(t.sent, sid) + if Due(t, e, sid) then 1 else 0
  {
    hide Sound, NotifyAll, SentTo, Numbers.PrintNat;
    match e
    case Subscribing(s, addressable) =>
      hide Step;
      SubscribeReaches(t, s, addressable);
      if |t.Of(s)| < 10 && addressable {
        SentMore(t.sent, Notice("uuid:" + Numbers.PrintNat(t.lastSid + 1, 10), 0), sid);
      }
    case Publishing(s) => PublishReaches(t, s);
    case Unsubscribing(s, id) => UnsubscribeTakes(t, s, id);
    case Delivered(c, done) =>
  }

  /** An UNSUBSCRIBE with an empty SID frees the only subscriber and leaves it in the list. */
  lemma {:induction false} FreedInTheList()
    ensures var run := [Subscribing(ConnectionManager, true), Delivered(0, true), Unsubscribing(ConnectionManager, "")];
      var t := Run(NoSubscribers, run);
      t.cm == [Sid(1)] && Sid(1) in t.records && t.records[Sid(1)].freed
  {
    var e0, e1, e2 := Subscribing(ConnectionManager, true), Delivered(0, true), Unsubscribing(ConnectionManager, "");
    var t1 := Run(NoSubscribers, [e0]);
    assert [e0][..0] == [] && Run(NoSubscribers, []) == NoSubscribers;
    assert t1.cm == [Sid(1)] && t1.containers == [Container(Sid(1), false)]
      && t1.records[Sid(1)] == Record(1, 2, false);
    var t2 := Run(NoSubscribers, [e0, e1]);
    assert [e0, e1][..1] == [e0];
    assert t2.cm == [Sid(1)] && t2.records[Sid(1)] == Record(1, 1, false);
    assert [e0, e1, e2][..2] == [e0, e1];
  }

  // ----- the list

  class SubscriberInfo {
    const SID: string
    var SEQ: int
    var RefCount: int
    var Next: SubscriberInfo?
    var Previous: SubscriberInfo?
    ghost var Freed: bool

    constructor (sid: string)
      ensures SID == sid && SEQ == 0 && RefCount == 1 && Next == null && Previous == null && !Freed
    {
      SID, SEQ, RefCount, Next, Previous, Freed := sid, 0, 1, null, null, false;
    }
  }

  ghost function InfoAt(nodes: seq<SubscriberInfo>, k: int): SubscriberInfo? {
    if 0 <= k < |nodes| then nodes[k] else null
  }

  ghost predicate Forward(nodes: seq<SubscriberInfo>)
    reads nodes`Next
  {
    forall k {:trigger nodes[k].Next} :: 0 <= k < |nodes| ==> nodes[k].Next == InfoAt(nodes, k + 1)
  }

  ghost predicate Backward(nodes: seq<SubscriberInfo>)
    reads nodes`Previous
  {
    forall k {:trigger nodes[k].Previous} :: 0 <= k < |nodes| ==> nodes[k].Previous == InfoAt(nodes, k - 1)
  }

  ghost predicate AllDifferent(nodes: seq<SubscriberInfo>) {
    forall j, k :: 0 <= j < k < |nodes| ==> nodes[j] != nodes[k]
  }

  /** Next and Previous run through the nodes in opposite directions. */
  ghost predicate DoublyLinked(nodes: seq<SubscriberInfo>)
    reads nodes`Next, nodes`Previous
  {
    AllDifferent(nodes) && Forward(nodes) && Backward(nodes)
  }

  ghost function Cut(nodes: seq<SubscriberInfo>, i: nat): (r: seq<SubscriberInfo>)
    requires i < |nodes|
    ensures |r| == |nodes| - 1
    ensures forall k :: 0 <= k < |r| ==> r[k] == nodes[if k < i then k else k + 1]
  {
    nodes[..i] + nodes[i + 1..]
  }

  /** The head pointer and the subscriber counter of one service. */
  class SubscriberList {
    var Head: SubscriberInfo?
    var Total: int
    ghost var Nodes: seq<SubscriberInfo>

    ghost predicate Valid()
      reads this, Nodes`Next, Nodes`Previous
    {
      Head == InfoAt(Nodes, 0) && Total == |Nodes| && DoublyLinked(Nodes)
    }

    constructor ()
      ensures Valid() && Nodes == []
    {
      Head, Total, Nodes := null, 0, [];
    }

    method Insert(info: SubscriberInfo)
      requires Valid() && info !in Nodes
      modifies this, info`Next, info`Previous, Nodes`Previous
      ensures Valid() && Nodes == [info] + old(Nodes)
    {
      info.Previous := null;
      info.Next := Head;
      if Head != null {
        Head.Previous := info;
      }
      Head := info;
      Total := Total + 1;
      Nodes := [info] + Nodes;
    }

    /** UpnpRemoveSubscriberInfo: the first node of this SID leaves the list. With a SID of a length it
        does not accept, or a counter out of range, the head is returned and stays. */
    method Remove(sid: string) returns (info: SubscriberInfo?)
      requires Valid()
      modifies this, Nodes`Next, Nodes`Previous
      ensures Valid()
      ensures var nodes, i := old(Nodes), Find(old(Nodes), sid);
        if |nodes| == 0 || |nodes| > MAX_UPNP_SUBSCRIBERS || !Acceptable(sid)
        then info == InfoAt(nodes, 0) && Nodes == nodes
        else info == InfoAt(nodes, i) && Nodes == if i < |nodes| then Cut(nodes, i) else nodes
    {
      info := Head;
      if Total <= 0 || Total > MAX_UPNP_SUBSCRIBERS || |sid| <= 0 || |sid| > MAX_SID {
        return;
      }
      ghost var i := 0;
      while info != null
        invariant i <= Find(Nodes, sid) && info == InfoAt(Nodes, i)
        decreases |Nodes| - i
      {
        if info.SID == sid {
          Unlink(info, i);
          break;
        }
        info, i := info.Next, i + 1;
      }
    }

    /** The node goes, and its neighbours point at each other. */
    method Unlink(info: SubscriberInfo, ghost i: nat)
      requires Valid() && i < |Nodes| && info == Nodes[i]
      modifies this, Nodes`Next, Nodes`Previous
      ensures Valid() && Nodes == Cut(old(Nodes), i)
      ensures info.Next == null && info.Previous == null
    {
      hide Forward, Backward, AllDifferent, Cut;
      Neighbours(i);
      var next, previous := info.Next, info.Previous;
      if previous == null {
        Head := next;
      } else {
        previous.Next := next;
      }
      if next != null {
        next.Previous := previous;
      }
      info.Previous := null;
      info.Next := null;
      Total := Total - 1;
      NextSkips(i);
      PreviousSkips(i);
      Nodes := Cut(Nodes, i);
    }

    lemma Neighbours(i: nat)
      requires DoublyLinked(Nodes) && i < |Nodes|
      ensures Nodes[i].Next == InfoAt(Nodes, i + 1) && Nodes[i].Previous == InfoAt(Nodes, i - 1)
      ensures AllDifferent(Cut(Nodes, i)) && forall k :: 0 <= k < |Nodes| && k != i ==> Nodes[k] != Nodes[i]
      ensures forall k :: 0 <= k < |Nodes| && k != i - 1 && i > 0 ==> Nodes[k] != Nodes[i - 1]
      ensures forall k :: 0 <= k < |Nodes| && k != i + 1 && i + 1 < |Nodes| ==> Nodes[k] != Nodes[i + 1]
    {
    }

    twostate lemma NextSkips(i: nat)
      requires i < |Nodes| && Nodes == old(Nodes) && old(Forward(Nodes))
      requires i > 0 ==> Nodes[i - 1].Next == InfoAt(Nodes, i + 1)
      requires forall k :: 0 <= k < |Nodes| && k != i && k != i - 1 ==> Nodes[k].Next == old(Nodes[k].Next)
      ensures Forward(Cut(Nodes, i))
    {
      forall k | 0 <= k < |Nodes| - 1 ensures Cut(Nodes, i)[k].Next == InfoAt(Cut(Nodes, i), k + 1) {
      }
    }

    twostate lemma PreviousSkips(i: nat)
      requires i < |Nodes| && Nodes == old(Nodes) && old(Backward(Nodes))
      requires i + 1 < |Nodes| ==> Nodes[i + 1].Previous == InfoAt(Nodes, i - 1)
      requires forall k :: 0 <= k < |Nodes| && k != i && k != i + 1 ==> Nodes[k].Previous == old(Nodes[k].Previous)
      ensures Backward(Cut(Nodes, i))
    {
      forall k | 0 <= k < |Nodes| - 1 ensures Cut(Nodes, i)[k].Previous == InfoAt(Cut(Nodes, i), k - 1) {
      }
    }
  }

  ghost function Find(nodes: seq<SubscriberInfo>, sid: string): (i: nat)
    ensures i <= |nodes| && (i < |nodes| ==> nodes[i].SID == sid)
    ensures forall k :: 0 <= k < i ==> nodes[k].SID != sid
  {
    if nodes == [] || nodes[0].SID == sid then 0 else 1 + Find(nodes[1..], sid)
  }

  lemma {:induction false} WithoutAt(sids: seq<string>, sid: string, i: nat)
    requires i < |sids| && sids[i] == sid && forall k :: 0 <= k < i ==> sids[k] != sid
    ensures Without(sids, sid) == sids[..i] + sids[i + 1..]
  {
    if i > 0 {
      WithoutAt(sids[1..], sid, i - 1);
      assert sids[..i] == [sids[0]] + sids[1..][..i - 1];
    }
  }

  // ----- the device

  class SubscriberContainer {
    const Subscriber: SubscriberInfo
    var Disposing: bool

    constructor (info: SubscriberInfo)
      ensures Subscriber == info && !Disposing
    {
      Subscriber, Disposing := info, false;
    }
  }

  class UpnpDataObject {
    const Manager: SubscriberList
    const Directory: SubscriberList
    var SID: nat
    var Outbox: seq<Notice> // the messages handed to the event client
    ghost var Containers: seq<SubscriberContainer>
    ghost var Infos: map<string, SubscriberInfo>
    ghost var State: Table

    function ListOf(s: Service): SubscriberList {
      if s.ConnectionManager? then Manager else Directory
    }

    /** A list holds the records of these SIDs. */
    ghost predicate Holds(list: SubscriberList, sids: seq<string>)
      reads this`Infos, list, list.Nodes`Next, list.Nodes`Previous
    {
      && list.Valid() && |list.Nodes| == |sids|
      && forall k :: 0 <= k < |sids| ==> sids[k] in Infos && list.Nodes[k] == Infos[sids[k]]
    }

    ghost predicate HasRecords(records: map<string, Record>)
      reads this`Infos, Infos.Values`SEQ, Infos.Values`RefCount, Infos.Values`Freed
    {
      && Infos.Keys == records.Keys
      && forall sid :: sid in Infos ==>
        && Infos[sid].SID == sid
        && records[sid] == Record(Infos[sid].SEQ, Infos[sid].RefCount, Infos[sid].Freed)
    }

    ghost predicate HasContainers(containers: seq<Container>)
      reads this`Infos, this`Containers, Containers`Disposing
    {
      && |Containers| == |containers|
      && (forall j, k :: 0 <= j < k < |Containers| ==> Containers[j] != Containers[k])
      && forall k :: 0 <= k < |Containers| ==>
        && containers[k].sid in Infos
        && Containers[k].Subscriber == Infos[containers[k].sid]
        && Containers[k].Disposing == containers[k].disposing
    }

    /** The objects are in the state the table describes. */
    ghost predicate Valid()
      reads this, Manager, Manager.Nodes, Directory, Directory.Nodes, Infos.Values, Containers
    {
      && Manager != Directory && Holds(Manager, State.cm) && Holds(Directory, State.cd)
      && HasRecords(State.records) && HasContainers(State.containers) && SID == State.lastSid && Outbox == State.sent
    }

    constructor ()
      ensures Valid() && State == NoSubscribers
    {
      Manager := new SubscriberList();
      Directory := new SubscriberList();
      SID, Outbox, Containers, Infos, State := 0, [], [], map[], NoSubscribers;
    }

    /** UpnpSendEvent_Body: a numbered message goes out, and its container holds a reference. */
    method SendEventBody(info: SubscriberInfo)
      requires Valid() && info.SID in Infos && info == Infos[info.SID] && !info.Freed
      modifies this`Outbox, this`Containers, this`State, info`SEQ, info`RefCount
      ensures Valid() && State == Notify(old(State), info.SID)
      ensures forall c :: c in Containers ==> c in old(Containers) || fresh(c)
    {
      hide Holds, HasContainers, HasRecords;
      Number(info);
      Enqueue(info);
    }

    /** The message carries the next number, and counts as a reference. */
    method Number(info: SubscriberInfo)
      requires HasRecords(State.records) && info.SID in Infos && info == Infos[info.SID] && !info.Freed
      modifies this`Outbox, this`State, info`SEQ, info`RefCount
      ensures Outbox == old(Outbox) + [Notice(info.SID, old(info.SEQ))] && info.SID in old(State.records)
      ensures HasRecords(State.records) && old(State.records)[info.SID].seqNo == old(info.SEQ)
      ensures var r := old(State.records)[info.SID];
        State == old(State).(records := old(State.records)[info.SID := r.(seqNo := r.seqNo + 1, refs := r.refs + 1)],
                             sent := old(State.sent) + [Notice(info.SID, r.seqNo)])
    {
      Outbox := Outbox + [Notice(info.SID, info.SEQ)];
      info.SEQ := info.SEQ + 1;
      info.RefCount := info.RefCount + 1;
      var r := State.records[info.SID];
      State := State.(records := State.records[info.SID := r.(seqNo := r.seqNo + 1, refs := r.refs + 1)],
                      sent := State.sent + [Notice(info.SID, r.seqNo)]);
    }

    /** ILibWebClient_PipelineRequestEx keeps the container until the message is delivered. */
    method Enqueue(info: SubscriberInfo)
      requires HasContainers(State.containers) && info.SID in Infos && info == Infos[info.SID]
      modifies this`Containers, this`State
      ensures HasContainers(State.containers)
      ensures State == old(State).(containers := old(State.containers) + [Container(info.SID, false)])
      ensures forall c :: c in Containers ==> c in old(Containers) || fresh(c)
    {
      var container := new SubscriberContainer(info);
      Containers := Containers + [container];
      State := State.(containers := State.containers + [Container(info.SID, false)]);
    }

    lemma RecordsAre()
      requires Valid()
      ensures Outbox == State.sent && Infos.Keys == State.records.Keys
      ensures forall sid :: sid in Infos ==> State.records[sid].seqNo == Infos[sid].SEQ
    {
    }

    lemma ListFacts(s: Service)
      requires Valid()
      ensures ListOf(s).Head == InfoAt(ListOf(s).Nodes, 0)
      ensures ListOf(s).Total == |ListOf(s).Nodes| == |State.Of(s)|
    {
    }

    lemma Subscribed(s: Service, k: nat)
      requires Valid() && Sound(State) && k < |State.Of(s)|
      ensures var nodes, sid := ListOf(s).Nodes, State.Of(s)[k];
        && |nodes| == |State.Of(s)| && sid in Infos && nodes[k] == Infos[sid] && nodes[k].SID == sid
        && nodes[k].Next == InfoAt(nodes, k + 1) && !nodes[k].Freed && State.Linked(sid)
    {
      NotifyKeeps(State, State.Of(s)[k]);
      hide Sound;
    }

    /** UpnpSendEvent: every subscriber of the service gets the event, from the head of the list on, each
        with its own next number. */
    method SendEvent(s: Service)
      requires Valid() && Sound(State)
      modifies this`Outbox, this`Containers, this`State, Infos.Values`SEQ, Infos.Values`RefCount
      ensures Valid() && Sound(State)
      ensures State == NotifyAll(old(State), old(State).Of(s))
      ensures var sids, n := old(State.Of(s)), |old(Outbox)|;
        && |Outbox| == n + |sids| && Outbox[..n] == old(Outbox)
        && forall k :: 0 <= k < |sids| ==>
          sids[k] in old(Infos) && Outbox[n + k] == Notice(sids[k], old(Infos[sids[k]].SEQ))
    {
      hide Sound, Valid, NotifyAll, Undelivered, SentTo;
      PublishReaches(State, s);
      RecordsAre();
      WalkList(s);
      RecordsAre();
    }

    /** The walk along the list. */
    method WalkList(s: Service)
      requires Valid() && Sound(State)
      modifies this`Outbox, this`Containers, this`State, Infos.Values`SEQ, Infos.Values`RefCount
      ensures Valid() && Sound(State)
      ensures State == NotifyAll(old(State), old(State).Of(s))
    {
      hide Sound, Valid, Notify;
      var info := ListOf(s).Head;
      ghost var sids, k := State.Of(s), 0;
      assert sids[0..] == sids;
      ListFacts(s);
      while info != null
        invariant k <= |sids| == |ListOf(s).Nodes| && info == InfoAt(ListOf(s).Nodes, k)
        invariant Valid() && Sound(State) && State.Of(s) == sids
        invariant NotifyAll(State, sids[k..]) == NotifyAll(old(State), sids)
        decreases |sids| - k
      {
        Subscribed(s, k);
        NotifyKeeps(State, sids[k]);
        SendEventBody(info);
        info, k := info.Next, k + 1;
      }
    }

    /** --RefCount, and the record is freed with the last reference. */
    method Drop(info: SubscriberInfo)
      requires Valid() && info.SID in Infos && info == Infos[info.SID] && !info.Freed
      modifies this`State, info`RefCount, info`Freed
      ensures State == Release(old(State), info.SID) && Valid()
    {
      hide Holds, HasContainers, HasRecords;
      Unreference(info);
    }

    method Unreference(info: SubscriberInfo)
      requires HasRecords(State.records) && info.SID in Infos && info == Infos[info.SID] && !info.Freed
      modifies this`State, info`RefCount, info`Freed
      ensures State == Release(old(State), info.SID) && HasRecords(State.records)
    {
      info.RefCount := info.RefCount - 1;
      if info.RefCount == 0 {
        info.Freed := true;
      }
      State := Release(State, info.SID);
    }

    /** No node is in both lists. */
    ghost predicate Apart()
      reads this`State, Manager`Nodes, Directory`Nodes
    {
      forall j, k :: 0 <= j < |Manager.Nodes| && 0 <= k < |Directory.Nodes| ==> Manager.Nodes[j] != Directory.Nodes[k]
    }

    lemma SoundApart()
      requires Valid() && Sound(State)
      ensures Apart() && |State.cm| <= MAX_SUBSCRIBED && |State.cd| <= MAX_SUBSCRIBED
    {
      forall j, k | 0 <= j < |Manager.Nodes| && 0 <= k < |Directory.Nodes|
        ensures Manager.Nodes[j] != Directory.Nodes[k]
      {
        assert State.cm[j] in State.cm && State.cd[k] in State.cd;
      }
    }

    /** UpnpSendEventSink, once the message has been answered. */
    method SendEventSink(container: SubscriberContainer, done: bool, ghost c: nat)
      requires Valid() && Sound(State) && c < |Containers| && container == Containers[c]
      modifies this`State, container`Disposing, container.Subscriber`RefCount, container.Subscriber`Freed
      ensures Valid() && Sound(State)
      ensures c < |old(State).containers| && State == Deliver(old(State), c, done)
    {
      InFlight(c);
      DeliverKeeps(State, c, done);
      hide Sound, Valid, Release;
      if done && !container.Disposing {
        Dispose(container, c);
        Drop(container.Subscriber);
      }
    }

    /** The subscriber of an undelivered message is not freed. */
    lemma InFlight(c: nat)
      requires Valid() && Sound(State) && c < |Containers|
      ensures c < |State.containers| && Containers[c].Disposing == State.containers[c].disposing
      ensures var info := Containers[c].Subscriber;
        info.SID == State.containers[c].sid && info.SID in Infos && info == Infos[info.SID]
      ensures !Containers[c].Disposing ==> !Containers[c].Subscriber.Freed
    {
      if !Containers[c].Disposing {
        UndeliveredOneLess(State.containers, c, State.containers[c].sid);
      }
    }

    method Dispose(container: SubscriberContainer, ghost c: nat)
      requires Valid() && c < |Containers| && container == Containers[c]
      modifies this`State, container`Disposing
      ensures Valid() && c < |old(State.containers)|
      ensures State ==
        old(State).(containers := old(State.containers)[c := old(State.containers)[c].(disposing := true)])
    {
      hide Holds, HasRecords;
      container.Disposing := true;
      State := State.(containers := State.containers[c := State.containers[c].(disposing := true)]);
    }

    /** UpnpProcessUNSUBSCRIBE with a SID header; the answer is 200 or 412. */
    method ProcessUnsubscribe(s: Service, sid: string) returns (code: int)
      requires Valid() && Sound(State)
      modifies this`State, Manager, Manager.Nodes, Directory, Directory.Nodes
      ensures Valid() && State == Unsubscribe(old(State), s, sid)
      ensures Sound(State) <==> Acceptable(sid) || old(State).Of(s) == []
      ensures code == if old(State).Of(s) != [] && (Acceptable(sid) ==> sid in old(State).Of(s)) then 200 else 412
    {
      hide Sound, Release, Valid;
      UnsubscribeKeeps(State, s, sid);
      SoundApart();
      Members(s);
      var info := Detach(s, sid);
      if info == null {
        code := 412;
      } else {
        Drop(info);
        code := 200;
      }
    }

    /** UpnpRemoveSubscriberInfo finds a record of the list: the one of this SID, or the head. */
    ghost predicate Found(info: SubscriberInfo?, sids: seq<string>, sid: string)
      reads this`Infos
    {
      if sids == [] || (Acceptable(sid) && sid !in sids) then info == null
      else
        var found := if Acceptable(sid) then sid else sids[0];
        found in Infos && info == Infos[found] && Infos[found].SID == found
    }

    /** The record to release has left its list, or it is the head and stays. */
    method Detach(s: Service, sid: string) returns (info: SubscriberInfo?)
      requires Valid() && Apart() && |State.Of(s)| <= MAX_SUBSCRIBED
      modifies this`State, Manager, Manager.Nodes`Next, Manager.Nodes`Previous
      modifies Directory, Directory.Nodes`Next, Directory.Nodes`Previous
      ensures Valid() && Found(info, old(State).Of(s), sid)
      ensures State ==
        if Acceptable(sid) && info != null then old(State).With(s, Without(old(State).Of(s), sid)) else old(State)
    {
      hide Holds, HasRecords, HasContainers, Without, Found;
      if s.ConnectionManager? {
        info := RemoveFrom(Manager, State.cm, sid, Directory, State.cd);
      } else {
        info := RemoveFrom(Directory, State.cd, sid, Manager, State.cm);
      }
      State := if Acceptable(sid) && info != null then State.With(s, Without(State.Of(s), sid)) else State;
    }

    /** UpnpRemoveSubscriberInfo on the list of one service; the other service's list stands. */
    method RemoveFrom(list: SubscriberList, ghost sids: seq<string>, sid: string,
                      ghost other: SubscriberList, ghost others: seq<string>)
      returns (info: SubscriberInfo?)
      requires other != list && Holds(other, others)
      requires forall j, k :: 0 <= j < |list.Nodes| && 0 <= k < |other.Nodes| ==> list.Nodes[j] != other.Nodes[k]
      requires Holds(list, sids) && |sids| <= MAX_SUBSCRIBED && HasRecords(State.records)
      modifies list, list.Nodes`Next, list.Nodes`Previous
      ensures Found(info, sids, sid)
      ensures Holds(other, others)
      ensures Holds(list, if Acceptable(sid) && info != null then Without(sids, sid) else sids)
    {
      hide Holds, HasRecords, Found, Without;
      info := Take(list, sids, sid);
    }

    method Take(list: SubscriberList, ghost sids: seq<string>, sid: string) returns (info: SubscriberInfo?)
      requires Holds(list, sids) && |sids| <= MAX_SUBSCRIBED && HasRecords(State.records)
      modifies list, list.Nodes`Next, list.Nodes`Previous
      ensures Found(info, sids, sid)
      ensures Holds(list, if Acceptable(sid) && info != null then Without(sids, sid) else sids)
    {
      ghost var nodes := list.Nodes;
      hide Holds, HasRecords, Cut, Without, Find, SubscriberList.Valid, Found;
      HoldsFacts(list, sids);
      info := list.Remove(sid);
      ghost var i := Find(nodes, sid);
      FoundAt(nodes, sids, sid);
      if Acceptable(sid) && i < |nodes| {
        WithoutAt(sids, sid, i);
        HoldsCut(list, sids, nodes, i);
      }
      HoldsAsWell(list, sids, nodes);
    }

    /** What the search of the list finds is the record of the SID, or the head. */
    lemma FoundAt(nodes: seq<SubscriberInfo>, sids: seq<string>, sid: string)
      requires |nodes| == |sids|
      requires forall k :: 0 <= k < |sids| ==> sids[k] in Infos && nodes[k] == Infos[sids[k]] && nodes[k].SID == sids[k]
      ensures
        Found(InfoAt(nodes, if nodes != [] && Acceptable(sid) then Find(nodes, sid) else 0), sids, sid)
      ensures Find(nodes, sid) < |nodes| ==> sids[Find(nodes, sid)] == sid
      ensures forall k :: 0 <= k < Find(nodes, sid) ==> sids[k] != sid
    {
      assert sid in sids <==> Find(nodes, sid) < |nodes|;
    }

    lemma HoldsAsWell(list: SubscriberList, sids: seq<string>, nodes: seq<SubscriberInfo>)
      requires list.Valid() && |nodes| == |sids|
      requires forall k :: 0 <= k < |sids| ==> sids[k] in Infos && nodes[k] == Infos[sids[k]]
      ensures list.Nodes == nodes ==> Holds(list, sids)
    {
    }

    lemma HoldsFacts(list: SubscriberList, sids: seq<string>)
      requires Holds(list, sids) && HasRecords(State.records)
      ensures list.Valid() && |list.Nodes| == |sids|
      ensures forall k :: 0 <= k < |sids| ==>
        sids[k] in Infos && list.Nodes[k] == Infos[sids[k]] && list.Nodes[k].SID == sids[k]
    {
    }

    lemma Members(s: Service)
      requires Valid() && Sound(State)
      ensures var nodes, sids := ListOf(s).Nodes, State.Of(s);
        && |nodes| == |sids| <= MAX_SUBSCRIBED
        && forall k :: 0 <= k < |sids| ==>
          && sids[k] in Infos && nodes[k] == Infos[sids[k]] && nodes[k].SID == sids[k] && !nodes[k].Freed
    {
      forall k | 0 <= k < |State.Of(s)| ensures State.Of(s)[k] in Infos && !Infos[State.Of(s)[k]].Freed {
        Subscribed(s, k);
      }
      assert Holds(ListOf(s), State.Of(s));
    }

    lemma HoldsCut(list: SubscriberList, sids: seq<string>, nodes: seq<SubscriberInfo>, i: nat)
      requires list.Valid() && i < |nodes| == |sids| && list.Nodes == Cut(nodes, i)
      requires forall k :: 0 <= k < |sids| ==> sids[k] in Infos && nodes[k] == Infos[sids[k]]
      ensures Holds(list, sids[..i] + sids[i + 1..])
    {
    }

    /** A new record, not yet in a list. */
    method Register(info: SubscriberInfo)
      requires Holds(Manager, State.cm) && Holds(Directory, State.cd)
      requires HasRecords(State.records) && HasContainers(State.containers) && info.SID !in Infos
      modifies this`Infos
      ensures Infos == old(Infos)[info.SID := info]
      ensures Holds(Manager, State.cm) && Holds(Directory, State.cd) && HasContainers(State.containers)
      ensures HasRecords(State.records[info.SID := Record(info.SEQ, info.RefCount, info.Freed)])
    {
      Infos := Infos[info.SID := info];
    }

    /** The new record goes to the head of the list of its service; the other service's list stands. */
    method InsertInto(list: SubscriberList, ghost sids: seq<string>, info: SubscriberInfo,
                      ghost other: SubscriberList, ghost others: seq<string>)
      requires other != list && Holds(list, sids) && Holds(other, others)
      requires info !in list.Nodes && info !in other.Nodes && info.SID in Infos && info == Infos[info.SID]
      requires forall j, k :: 0 <= j < |list.Nodes| && 0 <= k < |other.Nodes| ==> list.Nodes[j] != other.Nodes[k]
      modifies list, info`Next, info`Previous, list.Nodes`Previous
      ensures Holds(list, [info.SID] + sids) && Holds(other, others)
    {
      list.Insert(info);
    }

    /** The record is linked into the list of its service. */
    method LinkNew(s: Service, info: SubscriberInfo, ghost t: Table)
      requires Manager != Directory && Apart() && t.cm == State.cm && t.cd == State.cd
      requires Holds(Manager, t.cm) && Holds(Directory, t.cd)
      requires info !in Manager.Nodes && info !in Directory.Nodes && info.SID in Infos && info == Infos[info.SID]
      modifies Manager, Manager.Nodes`Previous, Directory, Directory.Nodes`Previous, info`Next, info`Previous
      ensures var u := t.With(s, [info.SID] + t.Of(s)); Holds(Manager, u.cm) && Holds(Directory, u.cd)
    {
      hide Holds;
      if s.ConnectionManager? {
        InsertInto(Manager, State.cm, info, Directory, State.cd);
      } else {
        InsertInto(Directory, State.cd, info, Manager, State.cm);
      }
    }

    method EnrolNew(s: Service) returns (info: SubscriberInfo)
      requires Valid() && Apart() && Sid(State.lastSid + 1) !in Infos
      modifies this`SID, this`Infos, this`State, Manager, Manager.Nodes`Previous, Directory, Directory.Nodes`Previous
      ensures Valid() && State == Enrol(old(State), s)
      ensures fresh(info) && info.SID == Sid(old(State).lastSid + 1)
      ensures info.SID in Infos && info == Infos[info.SID] && !info.Freed
    {
      hide Holds, HasRecords, HasContainers, Sid;
      info := Create();
      LinkNew(s, info, State);
      State := Enrol(State, s);
    }

    /** A new record under the next SID. */
    method Create() returns (info: SubscriberInfo)
      requires Valid() && Apart() && Sid(State.lastSid + 1) !in Infos
      modifies this`SID, this`Infos
      ensures SID == State.lastSid + 1 && Outbox == State.sent && Manager != Directory
      ensures fresh(info) && info.SID == Sid(SID) && !info.Freed
      ensures Infos == old(Infos)[info.SID := info]
      ensures Holds(Manager, State.cm) && Holds(Directory, State.cd) && HasContainers(State.containers) && Apart()
      ensures HasRecords(State.records[info.SID := Record(0, 1, false)])
    {
      hide Holds, HasRecords, HasContainers, Sid, Apart;
      SID := SID + 1;
      info := new SubscriberInfo(Sid(SID));
      Register(info);
    }

    /** UpnpTryToSubscribe, given whether the callback URL has a usable address; the answer is 200 or 412. */
    method TryToSubscribe(s: Service, addressable: bool) returns (code: int)
      requires Valid() && Sound(State)
      modifies this, Manager, Manager.Nodes`Previous, Directory, Directory.Nodes`Previous
      ensures Valid() && State == Subscribe(old(State), s, addressable) && Sound(State)
      ensures Outbox == old(Outbox) +
        if code == 200 then [Notice("uuid:" + Numbers.PrintNat(old(State).lastSid + 1, 10), 0)] else []
      ensures code == if |old(State).Of(s)| < MAX_SUBSCRIBED && addressable then 200 else 412
    {
      hide Sound, Sid, Notify, Valid, Enrol, Apart, Numbers.PrintNat;
      SubscribeReaches(State, s, addressable);
      RecordsAre();
      SubscribeKeeps(State, s, addressable);
      SoundApart();
      ListFacts(s);
      NextSidIsFree();
      code := 412;
      if ListOf(s).Total < MAX_SUBSCRIBED {
        if addressable {
          var info := EnrolNew(s);
          SendEventBody(info);
          code := 200;
        } else {
          SpendSid();
        }
      }
      RecordsAre();
    }

    lemma NextSidIsFree()
      requires Valid() && Sound(State)
      ensures Sid(State.lastSid + 1) !in Infos
    {
    }

    method SpendSid()
      requires Valid()
      modifies this`SID, this`State
      ensures Valid() && State == old(State).(lastSid := old(State).lastSid + 1)
    {
      hide Holds, HasRecords, HasContainers;
      SID := SID + 1;
      State := State.(lastSid := State.lastSid + 1);
    }

    /** UpnpRenewEvents finds the subscriber to renew. */
    method RenewEvents(s: Service, sid: string) returns (found: bool)
      requires Valid()
      ensures found <==> sid in State.Of(s)
    {
      var info := ListOf(s).Head;
      ghost var sids, k := State.Of(s), 0;
      while info != null && info.SID != sid
        invariant k <= |sids| && info == InfoAt(ListOf(s).Nodes, k)
        invariant sid !in sids[..k]
        decreases |sids| - k
      {
        info, k := info.Next, k + 1;
      }
      found := info != null;
    }
  }
}
