/** The timer list: events sorted by expiration tick, fired in list order by a check that lets their
    callbacks add and remove events. */
module LifeTime {
  import Sequences

  /** An event; the serial number tells apart events with the same data. */
  datatype Timer = Timer(serial: nat, data: int, tick: int)

  /** What a callback may ask of the monitor. */
  datatype Command = Add(data: int, tick: int) | Remove(data: int) | Flush

  datatype Reaction<S> = Reaction(user: S, commands: seq<Command>)

  datatype Monitor<S> = Monitor(pending: seq<Timer>, fired: seq<Timer>, removed: seq<Timer>, added: nat, user: S)

  // ----- what each operation does

  /** The place of a new event: in front of the first one that does not expire earlier. */
  function Place(l: seq<Timer>, tick: int): (i: nat)
    ensures i <= |l| && (i < |l| ==> tick <= l[i].tick)
    ensures forall k :: 0 <= k < i ==> l[k].tick < tick
  {
    if l == [] || tick <= l[0].tick then 0 else 1 + Place(l[1..], tick)
  }

  function Put(l: seq<Timer>, t: Timer): seq<Timer> {
    var i := Place(l, t.tick);
    l[..i] + [t] + l[i..]
  }

  /** The place of the first event of this data. */
  function Spot(l: seq<Timer>, data: int): (i: nat)
    ensures i <= |l| && (i < |l| ==> l[i].data == data)
    ensures forall k :: 0 <= k < i ==> l[k].data != data
  {
    if l == [] || l[0].data == data then 0 else 1 + Spot(l[1..], data)
  }

  /** The leading events that are due. */
  function Due(l: seq<Timer>, now: int): (i: nat)
    ensures i <= |l| && (i < |l| ==> now < l[i].tick)
    ensures forall k :: 0 <= k < i ==> l[k].tick <= now
  {
    if l == [] || now < l[0].tick then 0 else 1 + Due(l[1..], now)
  }

  function Apply<S>(m: Monitor<S>, c: Command): Monitor<S> {
    match c
    case Add(data, tick) => m.(pending := Put(m.pending, Timer(m.added, data, tick)), added := m.added + 1)
    case Remove(data) =>
      var i := Spot(m.pending, data);
      if i == |m.pending| then m
      else m.(pending := m.pending[..i] + m.pending[i + 1..], removed := m.removed + [m.pending[i]])
    case Flush => m.(pending := [], removed := m.removed + m.pending)
  }

  function ApplyAll<S>(m: Monitor<S>, cs: seq<Command>): Monitor<S>
    decreases |cs|
  {
    if cs == [] then m else ApplyAll(Apply(m, cs[0]), cs[1..])
  }

  function Fire<S>(m: Monitor<S>, t: Timer, react: (S, int) -> Reaction<S>): Monitor<S> {
    var r := react(m.user, t.data);
    ApplyAll(m.(fired := m.fired + [t], user := r.user), r.commands)
  }

  function FireAll<S>(m: Monitor<S>, due: seq<Timer>, react: (S, int) -> Reaction<S>): Monitor<S>
    decreases |due|
  {
    if due == [] then m else FireAll(Fire(m, due[0], react), due[1..], react)
  }

  /** The due events leave the list first; then their callbacks run. */
  function Check<S>(m: Monitor<S>, now: int, react: (S, int) -> Reaction<S>): Monitor<S> {
    var k := Due(m.pending, now);
    FireAll(m.(pending := m.pending[k..]), m.pending[..k], react)
  }

  // ----- what every run keeps

  ghost predicate Sorted(l: seq<Timer>) {
    forall j, k :: 0 <= j < k < |l| ==> l[j].tick <= l[k].tick
  }

  function Count(l: seq<Timer>, p: Timer -> bool): nat {
    if l == [] then 0 else (if p(l[0]) then 1 else 0) + Count(l[1..], p)
  }

  function OfSerial(n: nat): Timer -> bool {
    (t: Timer) => t.serial == n
  }

  function OfData(data: int): Timer -> bool {
    (t: Timer) => t.data == data
  }

  /** The n-th event added, once it is added, is in exactly one place: pending, waiting for its callback,
      fired or removed. */
  ghost predicate Accounted<S>(m: Monitor<S>, waiting: seq<Timer>, n: nat) {
    var p := OfSerial(n);
    Count(m.pending, p) + Count(waiting, p) + Count(m.fired, p) + Count(m.removed, p) == if n < m.added then 1 else 0
  }

  ghost predicate Sound<S>(m: Monitor<S>, waiting: seq<Timer>, n: nat) {
    Sorted(m.pending) && Accounted(m, waiting, n)
  }

  lemma {:induction false} CountJoin(a: seq<Timer>, b: seq<Timer>, p: Timer -> bool)
    ensures Count(a + b, p) == Count(a, p) + Count(b, p)
  {
    if a == [] {
      assert a + b == b;
    } else {
      assert (a + b)[1..] == a[1..] + b;
      CountJoin(a[1..], b, p);
    }
  }

  lemma {:induction false} CountMiddle(a: seq<Timer>, t: Timer, b: seq<Timer>, p: Timer -> bool)
    ensures Count(a + [t] + b, p) == Count(a + b, p) + if p(t) then 1 else 0
  {
    CountJoin(a + [t], b, p);
    CountJoin(a, b, p);
    CountMore(a, t, p);
    hide Count;
  }

  lemma {:induction false} CountMore(a: seq<Timer>, t: Timer, p: Timer -> bool)
    ensures Count(a + [t], p) == Count(a, p) + if p(t) then 1 else 0
  {
    CountJoin(a, [t], p);
    assert [t][1..] == [];
  }

  lemma {:induction false} PutKeeps(l: seq<Timer>, t: Timer, p: Timer -> bool)
    ensures Count(Put(l, t), p) == Count(l, p) + if p(t) then 1 else 0
    ensures Sorted(l) ==> Sorted(Put(l, t))
  {
    hide Count;
    var i := Place(l, t.tick);
    CountMiddle(l[..i], t, l[i..], p);
    assert l[..i] + l[i..] == l;
    PutSorted(l, t);
  }

  lemma PutSorted(l: seq<Timer>, t: Timer)
    ensures Sorted(l) ==> Sorted(Put(l, t))
  {
  }

  lemma {:induction false} CutKeeps(l: seq<Timer>, i: nat, p: Timer -> bool)
    requires i < |l|
    ensures Count(l, p) == Count(l[..i] + l[i + 1..], p) + if p(l[i]) then 1 else 0
    ensures Sorted(l) ==> Sorted(l[..i] + l[i + 1..])
  {
    CountMiddle(l[..i], l[i], l[i + 1..], p);
    assert l[..i] + [l[i]] + l[i + 1..] == l;
    hide Count;
  }

  lemma {:induction false} ApplyKeeps<S>(m: Monitor<S>, c: Command, waiting: seq<Timer>, n: nat)
    requires Sound(m, waiting, n)
    ensures Sound(Apply(m, c), waiting, n) && Apply(m, c).fired == m.fired
  {
    var p := OfSerial(n);
    match c
    case Add(data, tick) =>
      PutKeeps(m.pending, Timer(m.added, data, tick), p);
      hide Put, Count;
    case Remove(data) =>
      var i := Spot(m.pending, data);
      if i < |m.pending| {
        CutKeeps(m.pending, i, p);
        CountMore(m.removed, m.pending[i], p);
      }
      hide Count;
    case Flush =>
      CountJoin(m.removed, m.pending, p);
  }

  lemma {:induction false} ApplyAllKeeps<S>(m: Monitor<S>, cs: seq<Command>, waiting: seq<Timer>, n: nat)
    requires Sound(m, waiting, n)
    ensures Sound(ApplyAll(m, cs), waiting, n) && ApplyAll(m, cs).fired == m.fired
    decreases |cs|
  {
    if cs != [] {
      ApplyKeeps(m, cs[0], waiting, n);
      hide Sound, Apply;
      ApplyAllKeeps(Apply(m, cs[0]), cs[1..], waiting, n);
    }
  }

  lemma {:induction false} FireKeeps<S>(m: Monitor<S>, due: seq<Timer>, react: (S, int) -> Reaction<S>, n: nat)
    requires due != [] && Sound(m, due, n)
    ensures Sound(Fire(m, due[0], react), due[1..], n) && Fire(m, due[0], react).fired == m.fired + [due[0]]
  {
    var r := react(m.user, due[0].data);
    var o := m.(fired := m.fired + [due[0]], user := r.user);
    CountMore(m.fired, due[0], OfSerial(n));
    assert Sound(o, due[1..], n);
    hide Sound, ApplyAll;
    ApplyAllKeeps(o, r.commands, due[1..], n);
  }

  lemma {:induction false} FireAllKeeps<S>(m: Monitor<S>, due: seq<Timer>, react: (S, int) -> Reaction<S>, n: nat)
    requires Sound(m, due, n)
    ensures Sound(FireAll(m, due, react), [], n) && FireAll(m, due, react).fired == m.fired + due
    decreases |due|
  {
    hide Sound, Fire;
    if due == [] {
      assert m.fired + due == m.fired;
    } else {
      FireKeeps(m, due, react, n);
      FireAllKeeps(Fire(m, due[0], react), due[1..], react, n);
      assert m.fired + [due[0]] + due[1..] == m.fired + due;
    }
  }

  function DueOf(l: seq<Timer>, now: int): seq<Timer> {
    if l == [] then []
    else (if l[0].tick <= now then [l[0]] else []) + DueOf(l[1..], now)
  }

  lemma {:induction false} NoneDue(l: seq<Timer>, now: int)
    requires forall k :: 0 <= k < |l| ==> now < l[k].tick
    ensures DueOf(l, now) == []
  {
    if l != [] {
      NoneDue(l[1..], now);
    }
  }

  lemma {:induction false} DuePrefix(l: seq<Timer>, now: int)
    requires Sorted(l)
    ensures l[..Due(l, now)] == DueOf(l, now)
  {
    if l == [] {
    } else if now < l[0].tick {
      NoneDue(l, now);
    } else {
      DuePrefix(l[1..], now);
      var k := Due(l[1..], now);
      assert l[..k + 1] == [l[0]] + l[1..][..k];
    }
  }

  /** A check fires exactly the events due at its tick, in list order, and keeps the list sound. */
  lemma {:induction false} CheckFires<S>(m: Monitor<S>, now: int, react: (S, int) -> Reaction<S>, n: nat)
    requires Sound(m, [], n)
    ensures Sound(Check(m, now, react), [], n)
    ensures Check(m, now, react).fired == m.fired + DueOf(m.pending, now)
  {
    var k := Due(m.pending, now);
    var o := m.(pending := m.pending[k..]);
    SplitKeeps(m, k, n);
    DuePrefix(m.pending, now);
    hide Sound, FireAll, DueOf;
    FireAllKeeps(o, m.pending[..k], react, n);
  }

  lemma {:induction false} SplitKeeps<S>(m: Monitor<S>, k: nat, n: nat)
    requires Sound(m, [], n) && k <= |m.pending|
    ensures Sound(m.(pending := m.pending[k..]), m.pending[..k], n)
  {
    CountJoin(m.pending[..k], m.pending[k..], OfSerial(n));
    assert m.pending[..k] + m.pending[k..] == m.pending;
  }

  // ----- runs

  datatype Event = Command(command: Command) | Checking(now: int)

  function Run<S>(m: Monitor<S>, events: seq<Event>, react: (S, int) -> Reaction<S>): Monitor<S> {
    if events == [] then m
    else
      var n := Run(m, events[..|events| - 1], react);
      match events[|events| - 1]
      case Command(c) => Apply(n, c)
      case Checking(now) => Check(n, now, react)
  }

  /** Over every run, whatever the callbacks do, the list is sorted and each event is in one place. */
  lemma {:induction false} RunKeeps<S>(user: S, events: seq<Event>, react: (S, int) -> Reaction<S>, n: nat)
    ensures Sound(Run(Monitor([], [], [], 0, user), events, react), [], n)
  {
    if events != [] {
      var init := events[..|events| - 1];
      RunKeeps(user, init, react, n);
      var m := Run(Monitor([], [], [], 0, user), init, react);
      match events[|events| - 1]
      case Command(c) => ApplyKeeps(m, c, [], n);
      case Checking(now) => CheckFires(m, now, react, n);
    }
  }

  /** Removing by data takes one event away: it leaves none of that data only if there was at most one. */
  lemma {:induction false} RemoveTakesOne<S>(m: Monitor<S>, data: int)
    ensures Count(Apply(m, Remove(data)).pending, OfData(data)) == 0 <==> Count(m.pending, OfData(data)) <= 1
  {
    var l, i := m.pending, Spot(m.pending, data);
    if i < |l| {
      CutKeeps(l, i, OfData(data));
    } else {
      CountNone(l, data);
    }
    hide Count;
  }

  lemma {:induction false} CountNone(l: seq<Timer>, data: int)
    requires forall k :: 0 <= k < |l| ==> l[k].data != data
    ensures Count(l, OfData(data)) == 0
  {
    if l != [] {
      CountNone(l[1..], data);
    }
  }

  /** Two events with one data: the second survives the removal. */
  lemma {:induction false} SecondSurvives<S>(user: S)
    ensures var m := ApplyAll(Monitor([], [], [], 0, user), [Add(7, 1), Add(7, 2), Remove(7)]);
      m.pending == [Timer(1, 7, 2)] && m.removed == [Timer(0, 7, 1)]
  {
    var first, second := Timer(0, 7, 1), Timer(1, 7, 2);
    var m0 := Monitor([], [], [], 0, user);
    var m1, m2 := Apply(m0, Add(7, 1)), Apply(Apply(m0, Add(7, 1)), Add(7, 2));
    assert m1.pending == [first];
    assert m2.pending == [first, second];
    assert Spot(m2.pending, 7) == 0 && Apply(m2, Remove(7)).pending == [second];
    var cs := [Add(7, 1), Add(7, 2), Remove(7)];
    assert cs[1..][1..] == [Remove(7)] && cs[1..][1..][1..] == [];
    assert ApplyAll(m0, cs) == ApplyAll(m1, cs[1..]) == ApplyAll(m2, cs[1..][1..]) == Apply(m2, Remove(7));
  }

  // ----- the list as queues: for every data the ticks of its events, earliest first

  function Ticks(l: seq<Timer>, data: int): seq<int> {
    if l == [] then [] else (if l[0].data == data then [l[0].tick] else []) + Ticks(l[1..], data)
  }

  function Queued(ticks: seq<int>, tick: int): seq<int> {
    if ticks == [] || tick <= ticks[0] then [tick] + ticks else [ticks[0]] + Queued(ticks[1..], tick)
  }

  /** What a command means for the queue of one data: a removal takes the earliest event. */
  function Follow(ticks: seq<int>, c: Command, data: int): seq<int> {
    match c
    case Add(d, tick) => if d == data then Queued(ticks, tick) else ticks
    case Remove(d) => if d == data && ticks != [] then ticks[1..] else ticks
    case Flush => []
  }

  function FollowAll(ticks: seq<int>, cs: seq<Command>, data: int): seq<int> {
    if cs == [] then ticks else Follow(FollowAll(ticks, cs[..|cs| - 1], data), cs[|cs| - 1], data)
  }

  function Additions(cs: seq<Command>): nat {
    if cs == [] then 0 else Additions(cs[..|cs| - 1]) + if cs[|cs| - 1].Add? then 1 else 0
  }

  /** What the callbacks of these events ask for, the user state going from one to the next. */
  function Asked<S>(user: S, events: seq<Timer>, react: (S, int) -> Reaction<S>): seq<Command> {
    if events == [] then []
    else
      var init, last := events[..|events| - 1], events[|events| - 1];
      Asked(user, init, react) + react(UserAfter(user, init, react), last.data).commands
  }

  function UserAfter<S>(user: S, events: seq<Timer>, react: (S, int) -> Reaction<S>): S {
    if events == [] then user
    else react(UserAfter(user, events[..|events| - 1], react), events[|events| - 1].data).user
  }

  function NotDueOf(l: seq<Timer>, now: int): seq<Timer> {
    if l == [] then []
    else (if l[0].tick > now then [l[0]] else []) + NotDueOf(l[1..], now)
  }

  lemma {:induction false} TicksJoin(a: seq<Timer>, b: seq<Timer>, data: int)
    ensures Ticks(a + b, data) == Ticks(a, data) + Ticks(b, data)
  {
    if a == [] {
      assert a + b == b;
    } else {
      assert (a + b)[1..] == a[1..] + b;
      TicksJoin(a[1..], b, data);
      var head := if a[0].data == data then [a[0].tick] else [];
      assert Ticks(a, data) == head + Ticks(a[1..], data) && Ticks(a + b, data) == head + Ticks(a[1..] + b, data);
      hide Ticks;
      Sequences.Assoc(head, Ticks(a[1..], data), Ticks(b, data));
    }
  }

  lemma {:induction false} TicksBound(l: seq<Timer>, data: int, tick: int)
    ensures (forall k :: 0 <= k < |l| ==> l[k].tick < tick) ==>
      forall k :: 0 <= k < |Ticks(l, data)| ==> Ticks(l, data)[k] < tick
    ensures (forall k :: 0 <= k < |l| ==> tick <= l[k].tick) ==>
      forall k :: 0 <= k < |Ticks(l, data)| ==> tick <= Ticks(l, data)[k]
  {
    if l != [] {
      TicksBound(l[1..], data, tick);
    }
  }

  lemma {:induction false} QueuedBetween(a: seq<int>, b: seq<int>, tick: int)
    requires (forall k :: 0 <= k < |a| ==> a[k] < tick) && (b != [] ==> tick <= b[0])
    ensures Queued(a + b, tick) == a + [tick] + b
  {
    if a == [] {
      assert a + b == b;
    } else {
      assert (a + b)[1..] == a[1..] + b;
      QueuedBetween(a[1..], b, tick);
    }
  }

  lemma OneTick(t: Timer, data: int)
    ensures Ticks([t], data) == if t.data == data then [t.tick] else []
  {
    assert [t][1..] == [];
  }

  lemma PutFollows(l: seq<Timer>, t: Timer, data: int)
    requires Sorted(l)
    ensures Ticks(Put(l, t), data) == if t.data == data then Queued(Ticks(l, data), t.tick) else Ticks(l, data)
  {
    hide Ticks, Queued, Put, Sorted;
    var a, b := PutBetween(l, t);
    TicksJoin(a, b, data);
    TicksJoin(a + [t], b, data);
    TicksJoin(a, [t], data);
    OneTick(t, data);
    TicksBound(a, data, t.tick);
    TicksBound(b, data, t.tick);
    QueuedBetween(Ticks(a, data), Ticks(b, data), t.tick);
  }

  lemma PutBetween(l: seq<Timer>, t: Timer) returns (a: seq<Timer>, b: seq<Timer>)
    requires Sorted(l)
    ensures l == a + b && Put(l, t) == a + [t] + b
    ensures forall k :: 0 <= k < |a| ==> a[k].tick < t.tick
    ensures forall k :: 0 <= k < |b| ==> t.tick <= b[k].tick
  {
    var i := Place(l, t.tick);
    a, b := l[..i], l[i..];
  }

  lemma CutFollows(l: seq<Timer>, data: int, asked: int)
    ensures var i := Spot(l, asked);
      var r := if i == |l| then l else l[..i] + l[i + 1..];
      Ticks(r, data) == if asked == data && Ticks(l, data) != [] then Ticks(l, data)[1..] else Ticks(l, data)
  {
    hide Ticks;
    var i := Spot(l, asked);
    NoTicks(l[..i], asked);
    if i == |l| {
      assert l[..i] == l;
    } else {
      var a, t, b := l[..i], l[i], l[i + 1..];
      assert l == a + ([t] + b);
      TicksJoin(a, [t] + b, data);
      TicksJoin([t], b, data);
      TicksJoin(a, b, data);
      OneTick(t, data);
    }
  }

  lemma {:induction false} NoTicks(l: seq<Timer>, data: int)
    requires forall k :: 0 <= k < |l| ==> l[k].data != data
    ensures Ticks(l, data) == []
  {
    if l != [] {
      NoTicks(l[1..], data);
    }
  }

  /** Every command does to the queues what it says. */
  lemma ApplyFollows<S>(m: Monitor<S>, c: Command, data: int)
    requires Sorted(m.pending)
    ensures Ticks(Apply(m, c).pending, data) == Follow(Ticks(m.pending, data), c, data)
    ensures Apply(m, c).added == m.added + (if c.Add? then 1 else 0) && Apply(m, c).user == m.user
    ensures Sorted(Apply(m, c).pending)
  {
    hide Ticks, Queued, Put, Sorted;
    match c
    case Add(d, tick) =>
      PutFollows(m.pending, Timer(m.added, d, tick), data);
      PutKeeps(m.pending, Timer(m.added, d, tick), OfSerial(0));
    case Remove(d) =>
      CutFollows(m.pending, data, d);
      if Spot(m.pending, d) < |m.pending| {
        CutKeeps(m.pending, Spot(m.pending, d), OfSerial(0));
      }
    case Flush =>
      EmptyList(data);
  }

  lemma EmptyList(data: int)
    ensures Ticks([], data) == [] && Sorted([])
  {
  }

  lemma {:induction false} ApplyAllFollows<S>(m: Monitor<S>, cs: seq<Command>, data: int)
    requires Sorted(m.pending)
    ensures var u := ApplyAll(m, cs);
      && Ticks(u.pending, data) == FollowAll(Ticks(m.pending, data), cs, data)
      && u.added == m.added + Additions(cs) && u.user == m.user && Sorted(u.pending)
    decreases |cs|
  {
    if cs != [] {
      var init, last := cs[..|cs| - 1], cs[|cs| - 1];
      ApplyAllFollows(m, init, data);
      assert cs == init + [last];
      ApplyOneMore(m, init, last);
      hide ApplyAll, Apply, Ticks, Follow, Sorted;
      ApplyFollows(ApplyAll(m, init), last, data);
    }
  }

  lemma {:induction false} ApplyOneMore<S>(m: Monitor<S>, cs: seq<Command>, c: Command)
    ensures ApplyAll(m, cs + [c]) == Apply(ApplyAll(m, cs), c)
    decreases |cs|
  {
    hide Apply;
    if cs == [] {
      assert cs + [c] == [c] && [c][1..] == [];
    } else {
      assert (cs + [c])[1..] == cs[1..] + [c];
      ApplyOneMore(Apply(m, cs[0]), cs[1..], c);
    }
  }

  lemma {:induction false} FollowJoin(ticks: seq<int>, a: seq<Command>, b: seq<Command>, data: int)
    ensures FollowAll(ticks, a + b, data) == FollowAll(FollowAll(ticks, a, data), b, data)
    ensures Additions(a + b) == Additions(a) + Additions(b)
  {
    if b == [] {
      assert a + b == a;
    } else {
      var init, last := b[..|b| - 1], b[|b| - 1];
      assert (a + b)[..|a + b| - 1] == a + init;
      FollowJoin(ticks, a, init, data);
      hide Follow;
    }
  }

  lemma {:induction false} FireAllFollows<S>(m: Monitor<S>, due: seq<Timer>, react: (S, int) -> Reaction<S>, data: int)
    requires Sorted(m.pending)
    ensures var u, asked := FireAll(m, due, react), Asked(m.user, due, react);
      && Ticks(u.pending, data) == FollowAll(Ticks(m.pending, data), asked, data)
      && u.added == m.added + Additions(asked) && u.user == UserAfter(m.user, due, react) && Sorted(u.pending)
    decreases |due|
  {
    if due != [] {
      hide FireAll, ApplyAll, Ticks, FollowAll, Additions, Sorted, Asked, UserAfter;
      var init, last := due[..|due| - 1], due[|due| - 1];
      FireAllFollows(m, init, react, data);
      FireLast(m, due, react);
      var u := FireAll(m, init, react);
      var r := react(u.user, last.data);
      FollowJoin(Ticks(m.pending, data), Asked(m.user, init, react), r.commands, data);
      ApplyAllFollows(u.(fired := u.fired + [last], user := r.user), r.commands, data);
    }
  }

  lemma {:induction false} FireOneMore<S>(m: Monitor<S>, due: seq<Timer>, t: Timer, react: (S, int) -> Reaction<S>)
    ensures FireAll(m, due + [t], react) == Fire(FireAll(m, due, react), t, react)
    decreases |due|
  {
    hide Fire;
    if due == [] {
      assert due + [t] == [t] && [t][1..] == [];
    } else {
      assert (due + [t])[1..] == due[1..] + [t];
      FireOneMore(Fire(m, due[0], react), due[1..], t, react);
    }
  }

  lemma FireLast<S>(m: Monitor<S>, due: seq<Timer>, react: (S, int) -> Reaction<S>)
    requires due != []
    ensures var init, last := due[..|due| - 1], due[|due| - 1];
      var u, before := FireAll(m, init, react), UserAfter(m.user, init, react);
      var r := react(u.user, last.data);
      && FireAll(m, due, react) == ApplyAll(u.(fired := u.fired + [last], user := r.user), r.commands)
      && Asked(m.user, due, react) == Asked(m.user, init, react) + react(before, last.data).commands
      && UserAfter(m.user, due, react) == react(before, last.data).user
  {
    var init, last := due[..|due| - 1], due[|due| - 1];
    assert due == init + [last];
    FireOneMore(m, init, last, react);
    hide FireAll, ApplyAll;
  }

  lemma {:induction false} NotDueSuffix(l: seq<Timer>, now: int)
    requires Sorted(l)
    ensures l[Due(l, now)..] == NotDueOf(l, now)
  {
    if l != [] {
      NotDueSuffix(l[1..], now);
      if now < l[0].tick {
        assert Due(l, now) == 0 && Due(l[1..], now) == 0;
        assert l[1..][0..] == l[1..] && l == [l[0]] + l[1..];
      } else {
        assert l[Due(l, now)..] == l[1..][Due(l[1..], now)..];
      }
    }
  }

  /** A check does what the callbacks of the due events ask for, in order: the queue of every data is that of the
      events not due, changed by the commands one after the other. */
  lemma CheckFollows<S>(m: Monitor<S>, now: int, react: (S, int) -> Reaction<S>, data: int)
    requires Sorted(m.pending)
    ensures var u, asked := Check(m, now, react), Asked(m.user, DueOf(m.pending, now), react);
      && Ticks(u.pending, data) == FollowAll(Ticks(NotDueOf(m.pending, now), data), asked, data)
      && u.added == m.added + Additions(asked) && u.user == UserAfter(m.user, DueOf(m.pending, now), react)
  {
    var k := Due(m.pending, now);
    DuePrefix(m.pending, now);
    NotDueSuffix(m.pending, now);
    hide FireAll, Ticks, FollowAll, Asked, UserAfter, NotDueOf, DueOf;
    FireAllFollows(m.(pending := m.pending[k..]), m.pending[..k], react, data);
  }

  /** The events that commands add, the first one with this serial number. */
  function New(cs: seq<Command>, serial: nat): seq<Timer> {
    if cs == [] then []
    else
      var init, last := cs[..|cs| - 1], cs[|cs| - 1];
      New(init, serial) + if last.Add? then [Timer(serial + Additions(init), last.data, last.tick)] else []
  }

  /** When the callbacks only add, the pending events are those not due and one for every command: of any kind
      there are as many as of these together. */
  lemma CheckAdds<S>(m: Monitor<S>, now: int, react: (S, int) -> Reaction<S>, p: Timer -> bool)
    requires Sorted(m.pending) && AddsOnly(Asked(m.user, DueOf(m.pending, now), react))
    ensures Count(Check(m, now, react).pending, p) ==
      Count(NotDueOf(m.pending, now), p) + Count(New(Asked(m.user, DueOf(m.pending, now), react), m.added), p)
  {
    var k := Due(m.pending, now);
    DuePrefix(m.pending, now);
    NotDueSuffix(m.pending, now);
    hide FireAll, Asked, NotDueOf, DueOf, New, Count, AddsOnly;
    FireAllAdds(m.(pending := m.pending[k..]), m.pending[..k], react, p);
  }

  predicate AddsOnly(cs: seq<Command>) {
    forall k :: 0 <= k < |cs| ==> cs[k].Add?
  }

  lemma {:induction false} ApplyAllAdds<S>(m: Monitor<S>, cs: seq<Command>, p: Timer -> bool)
    requires AddsOnly(cs)
    ensures Count(ApplyAll(m, cs).pending, p) == Count(m.pending, p) + Count(New(cs, m.added), p)
    ensures ApplyAll(m, cs).added == m.added + Additions(cs) && ApplyAll(m, cs).user == m.user
    decreases |cs|
  {
    if cs != [] {
      var init, last := cs[..|cs| - 1], cs[|cs| - 1];
      hide ApplyAll, New, Additions, Put, Count;
      ApplyAllAdds(m, init, p);
      assert cs == init + [last];
      ApplyOneMore(m, init, last);
      NewLast(cs, m.added);
      var u := ApplyAll(m, init);
      var t := Timer(u.added, last.data, last.tick);
      PutKeeps(u.pending, t, p);
      CountMore(New(init, m.added), t, p);
    }
  }

  lemma NewLast(cs: seq<Command>, serial: nat)
    requires cs != [] && cs[|cs| - 1].Add?
    ensures var init, last := cs[..|cs| - 1], cs[|cs| - 1];
      && New(cs, serial) == New(init, serial) + [Timer(serial + Additions(init), last.data, last.tick)]
      && Additions(cs) == Additions(init) + 1
  {
  }

  lemma {:induction false} NewJoin(a: seq<Command>, b: seq<Command>, serial: nat)
    ensures New(a + b, serial) == New(a, serial) + New(b, serial + Additions(a))
    ensures Additions(a + b) == Additions(a) + Additions(b)
  {
    if b == [] {
      assert a + b == a;
    } else {
      assert (a + b)[..|a + b| - 1] == a + b[..|b| - 1];
      NewJoin(a, b[..|b| - 1], serial);
    }
  }

  lemma FireNone<S>(m: Monitor<S>, react: (S, int) -> Reaction<S>, p: Timer -> bool)
    ensures FireAll(m, [], react) == m && Asked(m.user, [], react) == [] && UserAfter(m.user, [], react) == m.user
    ensures Count(New([], m.added), p) == 0 && Additions([]) == 0
  {
  }

  lemma CountNew(a: seq<Command>, b: seq<Command>, serial: nat, p: Timer -> bool)
    ensures Count(New(a + b, serial), p) == Count(New(a, serial), p) + Count(New(b, serial + Additions(a)), p)
    ensures Additions(a + b) == Additions(a) + Additions(b)
  {
    hide New, Additions, Count;
    NewJoin(a, b, serial);
    CountJoin(New(a, serial), New(b, serial + Additions(a)), p);
  }

  lemma {:induction false} FireAllAdds<S>(m: Monitor<S>, due: seq<Timer>, react: (S, int) -> Reaction<S>,
                                          p: Timer -> bool)
    requires AddsOnly(Asked(m.user, due, react))
    ensures var u, asked := FireAll(m, due, react), Asked(m.user, due, react);
      && Count(u.pending, p) == Count(m.pending, p) + Count(New(asked, m.added), p)
      && u.added == m.added + Additions(asked) && u.user == UserAfter(m.user, due, react)
    decreases |due|
  {
    hide FireAll, ApplyAll, New, Additions, Count, Asked, UserAfter, AddsOnly;
    if due == [] {
      FireNone(m, react, p);
    } else {
      var init, last := due[..|due| - 1], due[|due| - 1];
      AskedLast(m.user, due, react);
      FireAllAdds(m, init, react, p);
      FireLast(m, due, react);
      var u, asked := FireAll(m, init, react), Asked(m.user, init, react);
      var r := react(u.user, last.data);
      assert Asked(m.user, due, react) == asked + r.commands;
      CountNew(asked, r.commands, m.added, p);
      ApplyAllAdds(u.(fired := u.fired + [last], user := r.user), r.commands, p);
    }
  }

  lemma AskedLast<S>(user: S, due: seq<Timer>, react: (S, int) -> Reaction<S>)
    requires due != [] && AddsOnly(Asked(user, due, react))
    ensures var init := due[..|due| - 1];
      AddsOnly(Asked(user, init, react)) && AddsOnly(react(UserAfter(user, init, react), due[|due| - 1].data).commands)
  {
    var init := due[..|due| - 1];
    var before, cs := Asked(user, init, react), react(UserAfter(user, init, react), due[|due| - 1].data).commands;
    assert forall k :: 0 <= k < |before| ==> before[k] == (before + cs)[k];
    assert forall k :: 0 <= k < |cs| ==> cs[k] == (before + cs)[|before| + k];
  }

  // ----- the list itself

  class LifeTimeMonitorData {
    const Data: int
    const ExpirationTick: int
    ghost const Serial: nat
    var Next: LifeTimeMonitorData?
    var Prev: LifeTimeMonitorData?

    constructor (data: int, tick: int, ghost serial: nat)
      ensures Event() == Timer(serial, data, tick) && Next == null && Prev == null
    {
      Data, ExpirationTick, Serial, Next, Prev := data, tick, serial, null, null;
    }

    ghost function Event(): Timer {
      Timer(Serial, Data, ExpirationTick)
    }
  }

  ghost function NodeAt(nodes: seq<LifeTimeMonitorData>, k: int): LifeTimeMonitorData? {
    if 0 <= k < |nodes| then nodes[k] else null
  }

  ghost predicate Forward(nodes: seq<LifeTimeMonitorData>)
    reads nodes`Next
  {
    forall k {:trigger nodes[k].Next} :: 0 <= k < |nodes| ==> nodes[k].Next == NodeAt(nodes, k + 1)
  }

  ghost predicate Backward(nodes: seq<LifeTimeMonitorData>)
    reads nodes`Prev
  {
    forall k {:trigger nodes[k].Prev} :: 0 <= k < |nodes| ==> nodes[k].Prev == NodeAt(nodes, k - 1)
  }

  ghost predicate AllDifferent(nodes: seq<LifeTimeMonitorData>) {
    forall j, k :: 0 <= j < k < |nodes| ==> nodes[j] != nodes[k]
  }

  ghost predicate Represent(nodes: seq<LifeTimeMonitorData>, timers: seq<Timer>) {
    |nodes| == |timers| && forall k :: 0 <= k < |nodes| ==> nodes[k].Event() == timers[k]
  }

  ghost function Cut(nodes: seq<LifeTimeMonitorData>, i: nat): (r: seq<LifeTimeMonitorData>)
    requires i < |nodes|
    ensures |r| == |nodes| - 1
    ensures forall k :: 0 <= k < |r| ==> r[k] == nodes[if k < i then k else k + 1]
  {
    nodes[..i] + nodes[i + 1..]
  }

  ghost function With(nodes: seq<LifeTimeMonitorData>, i: nat, node: LifeTimeMonitorData): (r: seq<LifeTimeMonitorData>)
    requires i <= |nodes|
    ensures |r| == |nodes| + 1
    ensures forall k :: 0 <= k < |r| ==> r[k] == if k < i then nodes[k] else if k == i then node else nodes[k - 1]
  {
    nodes[..i] + [node] + nodes[i..]
  }

  class ILibLifeTime<S> {
    var LM: LifeTimeMonitorData?
    var User: S
    const React: (S, int) -> Reaction<S>
    ghost var Nodes: seq<LifeTimeMonitorData>
    ghost var State: Monitor<S>

    ghost predicate Valid()
      reads this, Nodes
    {
      && LM == NodeAt(Nodes, 0) && Forward(Nodes) && Backward(Nodes) && AllDifferent(Nodes)
      && Represent(Nodes, State.pending) && User == State.user
    }

    constructor (user: S, react: (S, int) -> Reaction<S>)
      ensures Valid() && State == Monitor([], [], [], 0, user) && React == react
    {
      LM, User, React, Nodes, State := null, user, react, [], Monitor([], [], [], 0, user);
    }

    /** ILibLifeTime_Add, with the tick that is the given number of seconds from now: the event goes in
        front of the first one that does not expire earlier. */
    method AddEvent(data: int, tick: int)
      requires Valid()
      modifies this`LM, this`Nodes, this`State, Nodes`Next, Nodes`Prev
      ensures Valid() && State == Apply(old(State), Add(data, tick))
      ensures forall k :: 0 <= k < |Nodes| ==> Nodes[k] in old(Nodes) || fresh(Nodes[k])
    {
      var ltms := new LifeTimeMonitorData(data, tick, State.added);
      hide Valid, Spliced;
      Nonempty();
      if LM == null {
        LinkFirst(ltms);
      } else {
        var temp := LastBefore(ltms.ExpirationTick);
        if ltms.ExpirationTick <= temp.ExpirationTick {
          LinkBefore(ltms, temp);
        } else {
          LinkAfter(ltms, temp);
        }
      }
      Adopt(ltms);
    }

    lemma Nonempty()
      requires Valid()
      ensures LM != null ==> Represent(Nodes, State.pending) && Nodes != []
      ensures AllDifferent(Nodes) && Represent(Nodes, State.pending) && User == State.user
    {
    }

    /** The links run through the nodes and the new one in its place. */
    ghost predicate Spliced(ltms: LifeTimeMonitorData)
      reads this, ltms, Nodes
    {
      && |State.pending| == |Nodes|
      && var r := With(Nodes, Place(State.pending, ltms.ExpirationTick), ltms);
        LM == r[0] && Forward(r) && Backward(r)
    }

    ghost method Adopt(ltms: LifeTimeMonitorData)
      requires Spliced(ltms) && ltms !in Nodes && ltms.Serial == State.added
      requires AllDifferent(Nodes) && Represent(Nodes, State.pending) && User == State.user
      modifies this`Nodes, this`State
      ensures Valid() && State == Apply(old(State), Add(ltms.Data, ltms.ExpirationTick))
      ensures forall k :: 0 <= k < |Nodes| ==> Nodes[k] in old(Nodes) || Nodes[k] == ltms
    {
      var i := Place(State.pending, ltms.ExpirationTick);
      hide Forward, Backward, AllDifferent, Place, With, Represent;
      WithStands(i, ltms);
      Nodes := With(Nodes, i, ltms);
      State := Apply(State, Add(ltms.Data, ltms.ExpirationTick));
    }

    lemma WithStands(i: nat, node: LifeTimeMonitorData)
      requires i <= |Nodes| && node !in Nodes && AllDifferent(Nodes) && Represent(Nodes, State.pending)
      ensures var r := With(Nodes, i, node);
        AllDifferent(r) && forall k :: 0 <= k < |r| ==> r[k] in Nodes || r[k] == node
      ensures Represent(With(Nodes, i, node), State.pending[..i] + [node.Event()] + State.pending[i..])
    {
    }

    method LinkFirst(ltms: LifeTimeMonitorData)
      requires Valid() && LM == null && ltms.Next == null && ltms.Prev == null
      modifies this`LM
      ensures Spliced(ltms)
    {
      LM := ltms;
    }

    method LinkBefore(ltms: LifeTimeMonitorData, temp: LifeTimeMonitorData)
      requires Valid() && ltms !in Nodes && ltms.Prev == null
      requires Place(State.pending, ltms.ExpirationTick) < |Nodes|
        && temp == Nodes[Place(State.pending, ltms.ExpirationTick)]
      modifies this`LM, ltms, Nodes`Next, Nodes`Prev
      ensures Spliced(ltms)
    {
      assert |State.pending| == |Nodes|;
      hide Forward, Backward, AllDifferent, Represent, With, Place;
      Neighbours(Place(State.pending, ltms.ExpirationTick));
      ltms.Next := temp;
      if temp.Prev == null {
        LM := ltms;
        temp.Prev := ltms;
      } else {
        ltms.Prev := temp.Prev;
        temp.Prev.Next := ltms;
        temp.Prev := ltms;
      }
      Inserted(ltms);
    }

    method LinkAfter(ltms: LifeTimeMonitorData, temp: LifeTimeMonitorData)
      requires Valid() && ltms !in Nodes && |Nodes| > 0
      requires Place(State.pending, ltms.ExpirationTick) == |Nodes| && temp == Nodes[|Nodes| - 1]
      modifies ltms, Nodes`Next
      ensures Spliced(ltms)
    {
      assert |State.pending| == |Nodes|;
      hide Forward, Backward, AllDifferent, Represent, With, Place;
      Neighbours(|Nodes| - 1);
      ltms.Next := null;
      ltms.Prev := temp;
      temp.Next := ltms;
      Inserted(ltms);
    }

    /** The first event that does not expire earlier, or the last one. */
    method LastBefore(tick: int) returns (temp: LifeTimeMonitorData)
      requires Valid() && LM != null
      ensures |Nodes| > 0 && |Nodes| == |State.pending|
      ensures var i := Place(State.pending, tick);
        if tick <= temp.ExpirationTick then i < |Nodes| && temp == Nodes[i] else i == |Nodes| && temp == Nodes[i - 1]
    {
      temp := LM;
      ghost var k := 0;
      while tick > temp.ExpirationTick && temp.Next != null
        invariant k <= Place(State.pending, tick) && k < |Nodes| && temp == Nodes[k]
        decreases |Nodes| - k
      {
        assert temp.Event() == State.pending[k];
        temp, k := temp.Next, k + 1;
      }
      assert temp.Event() == State.pending[k];
    }

    lemma Neighbours(i: nat)
      requires Forward(Nodes) && Backward(Nodes) && AllDifferent(Nodes) && i < |Nodes|
      ensures Nodes[i].Next == NodeAt(Nodes, i + 1) && Nodes[i].Prev == NodeAt(Nodes, i - 1)
      ensures forall k :: 0 <= k < |Nodes| && k != i ==> Nodes[k] != Nodes[i]
      ensures forall k :: 0 <= k < |Nodes| && k != i - 1 && i > 0 ==> Nodes[k] != Nodes[i - 1]
      ensures forall k :: 0 <= k < |Nodes| && k != i + 1 && i + 1 < |Nodes| ==> Nodes[k] != Nodes[i + 1]
    {
    }

    /** The new node stands between its neighbours, and no other link changed. */
    twostate lemma Inserted(new node: LifeTimeMonitorData)
      requires Nodes == old(Nodes) && State == old(State) && |State.pending| == |Nodes|
      requires old(Forward(Nodes)) && old(Backward(Nodes))
      requires var i := Place(State.pending, node.ExpirationTick);
        && node.Next == NodeAt(Nodes, i) && node.Prev == NodeAt(Nodes, i - 1)
        && (i > 0 ==> Nodes[i - 1].Next == node) && (i < |Nodes| ==> Nodes[i].Prev == node)
        && (i == 0 ==> LM == node) && (i > 0 ==> LM == Nodes[0])
        && (forall k :: 0 <= k < |Nodes| && k != i - 1 ==> Nodes[k].Next == old(Nodes[k].Next))
        && (forall k :: 0 <= k < |Nodes| && k != i ==> Nodes[k].Prev == old(Nodes[k].Prev))
      ensures Spliced(node)
    {
      var r := With(Nodes, Place(State.pending, node.ExpirationTick), node);
      hide Place, With;
      assert Forward(r) by {
        forall k | 0 <= k < |r| ensures r[k].Next == NodeAt(r, k + 1) {
        }
      }
      assert Backward(r) by {
        forall k | 0 <= k < |r| ensures r[k].Prev == NodeAt(r, k - 1) {
        }
      }
    }

    /** ILibLifeTime_Remove: the search ends with the first match, whose link to the rest is cleared. */
    method RemoveEvent(data: int)
      requires Valid()
      modifies this`LM, this`Nodes, this`State, Nodes`Next, Nodes`Prev
      ensures Valid() && State == Apply(old(State), Remove(data))
      ensures forall k :: 0 <= k < |Nodes| ==> Nodes[k] in old(Nodes)
    {
      var first := LM;
      ghost var k := 0;
      Lengths();
      hide Forward, Backward, AllDifferent, Represent, Cut;
      while first != null
        invariant Valid() && forall k :: 0 <= k < |Nodes| ==> Nodes[k] in old(Nodes)
        invariant first != null ==> State == old(State) && Nodes == old(Nodes)
        invariant first != null ==> k <= Spot(State.pending, data) && k < |Nodes| && first == Nodes[k]
        invariant first == null ==> State == Apply(old(State), Remove(data))
        decreases if first == null then 0 else |Nodes| - k
      {
        Lengths();
        Neighbours(k);
        if first.Data == data {
          Unlink(first, k);
        }
        first, k := first.Next, k + 1;
      }
    }

    lemma Lengths()
      requires Represent(Nodes, State.pending)
      ensures |Nodes| == |State.pending|
      ensures forall k :: 0 <= k < |Nodes| ==> Nodes[k].Event() == State.pending[k]
    {
    }

    method Unlink(first: LifeTimeMonitorData, ghost i: nat)
      requires Valid() && i < |Nodes| && first == Nodes[i] && i == Spot(State.pending, first.Data)
      modifies this`LM, this`Nodes, this`State, Nodes`Next, Nodes`Prev
      ensures Valid() && State == Apply(old(State), Remove(first.Data)) && first.Next == null
      ensures forall k :: 0 <= k < |Nodes| ==> Nodes[k] in old(Nodes)
    {
      hide Forward, Backward, AllDifferent, Represent, Cut;
      Neighbours(i);
      if first.Prev == null {
        LM := first.Next;
        if LM != null {
          LM.Prev := null;
        }
      } else {
        first.Prev.Next := first.Next;
        if first.Next != null {
          first.Next.Prev := first.Prev;
        }
      }
      first.Prev := null;
      first.Next := null;
      NextSkips(i);
      PrevSkips(i);
      CutStands(i);
      Nodes := Cut(Nodes, i);
      State := Apply(State, Remove(first.Data));
    }

    lemma CutStands(i: nat)
      requires AllDifferent(Nodes) && i < |Nodes| && Represent(Nodes, State.pending)
      ensures AllDifferent(Cut(Nodes, i)) && i < |State.pending|
      ensures Represent(Cut(Nodes, i), State.pending[..i] + State.pending[i + 1..])
      ensures forall k :: 0 <= k < |Nodes| - 1 ==> Cut(Nodes, i)[k] in Nodes
    {
    }

    twostate lemma NextSkips(i: nat)
      requires i < |Nodes| && Nodes == old(Nodes) && old(Forward(Nodes))
      requires i > 0 ==> Nodes[i - 1].Next == NodeAt(Nodes, i + 1)
      requires forall k :: 0 <= k < |Nodes| && k != i && k != i - 1 ==> Nodes[k].Next == old(Nodes[k].Next)
      ensures Forward(Cut(Nodes, i))
    {
      forall k | 0 <= k < |Nodes| - 1 ensures Cut(Nodes, i)[k].Next == NodeAt(Cut(Nodes, i), k + 1) {
      }
    }

    twostate lemma PrevSkips(i: nat)
      requires i < |Nodes| && Nodes == old(Nodes) && old(Backward(Nodes))
      requires i + 1 < |Nodes| ==> Nodes[i + 1].Prev == NodeAt(Nodes, i - 1)
      requires forall k :: 0 <= k < |Nodes| && k != i && k != i + 1 ==> Nodes[k].Prev == old(Nodes[k].Prev)
      ensures Backward(Cut(Nodes, i))
    {
      forall k | 0 <= k < |Nodes| - 1 ensures Cut(Nodes, i)[k].Prev == NodeAt(Cut(Nodes, i), k - 1) {
      }
    }

    /** ILibLifeTime_Flush */
    method FlushEvents()
      requires Valid()
      modifies this`LM, this`Nodes, this`State
      ensures Valid() && State == Apply(old(State), Flush) && Nodes == []
    {
      LM, Nodes := null, [];
      State := Apply(State, Flush);
    }

    /** What a callback asks for, in order. */
    method RunCommands(cs: seq<Command>)
      requires Valid()
      modifies this`LM, this`Nodes, this`State, Nodes`Next, Nodes`Prev
      ensures Valid() && State == ApplyAll(old(State), cs)
      ensures forall k :: 0 <= k < |Nodes| ==> Nodes[k] in old(Nodes) || fresh(Nodes[k])
    {
      hide Valid, Apply;
      assert cs[0..] == cs;
      for i := 0 to |cs|
        invariant Valid() && ApplyAll(State, cs[i..]) == ApplyAll(old(State), cs)
        invariant forall k :: 0 <= k < |Nodes| ==> Nodes[k] in old(Nodes) || fresh(Nodes[k])
      {
        assert cs[i..][0] == cs[i] && cs[i..][1..] == cs[i + 1..];
        match cs[i]
        case Add(data, tick) => AddEvent(data, tick);
        case Remove(data) => RemoveEvent(data);
        case Flush => FlushEvents();
      }
    }

    method RunCallback(data: int, ghost t: Timer)
      requires Valid() && t.data == data
      modifies this`LM, this`User, this`Nodes, this`State, Nodes`Next, Nodes`Prev
      ensures Valid() && State == Fire(old(State), t, React)
      ensures forall k :: 0 <= k < |Nodes| ==> Nodes[k] in old(Nodes) || fresh(Nodes[k])
    {
      hide Forward, Backward, AllDifferent, Represent, ApplyAll;
      var r := React(User, data);
      User := r.user;
      State := State.(fired := State.fired + [t], user := r.user);
      RunCommands(r.commands);
    }

    ghost predicate Apart(waiting: seq<LifeTimeMonitorData>)
      reads this`Nodes
    {
      forall j, k :: 0 <= j < |waiting| && 0 <= k < |Nodes| ==> waiting[j] != Nodes[k]
    }

    /** The due events leave the list, as a list of their own. */
    method TakeDue(now: int) returns (evt: LifeTimeMonitorData?, ghost waiting: seq<LifeTimeMonitorData>)
      requires Valid()
      modifies this`LM, this`Nodes, this`State, Nodes`Next, Nodes`Prev
      ensures var k := Due(old(State).pending, now);
        && Valid() && State == old(State).(pending := old(State).pending[k..])
        && evt == NodeAt(waiting, 0) && Forward(waiting) && Represent(waiting, old(State).pending[..k])
        && Apart(waiting)
        && (forall j :: 0 <= j < |waiting| ==> waiting[j] in old(Nodes))
        && (forall j :: 0 <= j < |Nodes| ==> Nodes[j] in old(Nodes))
    {
      hide Forward, Backward, Represent, AllDifferent, Due;
      var last, temp;
      ghost var k;
      evt, last, temp, k := FindDue(now);
      SplitStands(k);
      CutOff(evt, last, temp, k);
      waiting := Nodes[..k];
      Nodes := Nodes[k..];
      State := State.(pending := State.pending[k..]);
    }

    method FindDue(now: int)
      returns (evt: LifeTimeMonitorData?, last: LifeTimeMonitorData?, temp: LifeTimeMonitorData?, ghost k: nat)
      requires Valid()
      ensures k == Due(State.pending, now) && k <= |Nodes| && temp == NodeAt(Nodes, k)
      ensures if k == 0 then evt == null else evt == LM && last == Nodes[k - 1]
    {
      temp, last, evt, k := LM, null, null, 0;
      while temp != null && temp.ExpirationTick <= now
        invariant k <= Due(State.pending, now) && k <= |Nodes| && temp == NodeAt(Nodes, k)
        invariant if k == 0 then evt == null else evt == LM && last == Nodes[k - 1]
        decreases |Nodes| - k
      {
        assert temp.Event() == State.pending[k];
        evt := LM;
        last := temp;
        temp, k := temp.Next, k + 1;
      }
      assert temp != null ==> temp.Event() == State.pending[k];
    }

    method CutOff(evt: LifeTimeMonitorData?, last: LifeTimeMonitorData?, temp: LifeTimeMonitorData?, ghost k: nat)
      requires Valid() && k <= |Nodes| && temp == NodeAt(Nodes, k)
      requires if k == 0 then evt == null else evt == LM && last == Nodes[k - 1]
      modifies this`LM, Nodes`Next, Nodes`Prev
      ensures LM == NodeAt(Nodes[k..], 0) && Forward(Nodes[k..]) && Backward(Nodes[k..])
      ensures Forward(Nodes[..k])
    {
      if evt != null {
        if temp != null {
          LM := temp;
          LM.Prev := null;
          last.Next := null;
        } else {
          LM := null;
        }
      }
    }

    lemma SplitStands(k: nat)
      requires k <= |Nodes| && AllDifferent(Nodes) && Represent(Nodes, State.pending)
      ensures Represent(Nodes[..k], State.pending[..k]) && Represent(Nodes[k..], State.pending[k..])
      ensures AllDifferent(Nodes[k..]) && k <= |State.pending|
      ensures forall i, j :: 0 <= i < |Nodes[..k]| && 0 <= j < |Nodes[k..]| ==> Nodes[..k][i] != Nodes[k..][j]
    {
    }

    /** The callbacks of the due events run in list order; they may change the list behind them. */
    method FireDue(first: LifeTimeMonitorData?, ghost waiting: seq<LifeTimeMonitorData>, ghost due: seq<Timer>)
      requires Valid() && first == NodeAt(waiting, 0) && Forward(waiting) && Represent(waiting, due) && Apart(waiting)
      modifies this`LM, this`User, this`Nodes, this`State, Nodes`Next, Nodes`Prev
      ensures Valid() && State == FireAll(old(State), due, React)
    {
      var evt := first;
      ghost var k := 0;
      assert due[0..] == due;
      hide Valid, Fire;
      while evt != null
        invariant k <= |due| == |waiting| && evt == NodeAt(waiting, k)
        invariant Valid() && FireAll(State, due[k..], React) == FireAll(old(State), due, React)
        invariant Forward(waiting) && Apart(waiting)
        invariant forall j :: 0 <= j < |Nodes| ==> Nodes[j] in old(Nodes) || fresh(Nodes[j])
        decreases |due| - k
      {
        assert due[k..][0] == due[k] == evt.Event() && due[k..][1..] == due[k + 1..];
        RunCallback(evt.Data, due[k]);
        evt, k := evt.Next, k + 1;
      }
    }

    /** ILibLifeTime_Check: on return the wait is no longer than the time to the new head. */
    method CheckDue(now: int, blocktime: int) returns (wait: int)
      requires Valid()
      modifies this`LM, this`User, this`Nodes, this`State, Nodes`Next, Nodes`Prev
      ensures Valid() && State == Check(old(State), now, React)
      ensures State.pending != [] ==> wait <= State.pending[0].tick - now
      ensures wait <= blocktime && (wait == blocktime || (State.pending != [] && wait == State.pending[0].tick - now))
    {
      wait := blocktime;
      Head();
      if LM != null {
        ghost var due := State.pending[..Due(State.pending, now)];
        hide Valid, FireAll;
        var evt, waiting := TakeDue(now);
        FireDue(evt, waiting, due);
        Head();
        if LM != null {
          var nexttick := LM.ExpirationTick - now;
          if nexttick < wait {
            wait := nexttick;
          }
        }
      }
    }

    lemma Head()
      requires Valid()
      ensures LM == null <==> State.pending == []
      ensures LM != null ==> LM.ExpirationTick == State.pending[0].tick
    {
      assert LM != null ==> LM.Event() == State.pending[0];
    }
  }
}
