/** The receive half of `ILibAsyncSocket`: the sliding buffer of `ILibProcessAsyncSocket` and its
    redelivery loops, over an arbitrary data callback. The callback is a value of the socket, as the
    function pointer and the `user` pointer are in the source. */
module ReceiveLoop {
  import Sequences

  /** What one OnData call leaves behind: the new user state, `*p_beginPointer` and `*PAUSE`. */
  datatype Reply<S> = Reply(user: S, begin: nat, pause: bool)

  type Callback<!S> = (S, string) -> Reply<S>

  /** The callback moves the begin pointer within the window it was given. */
  ghost predicate Bounded<S(!new)>(f: Callback<S>) {
    forall u: S, w: string :: f(u, w).begin <= |w|
  }

  /** The socket's receive state: the user state, buffer[0..EndPointer], BeginPointer and PAUSE. */
  datatype Socket<S> = Socket(user: S, buffer: string, begin: nat, pause: bool) {
    predicate InBounds() {
      begin <= |buffer|
    }
    function Unread(): string
      requires InBounds()
    {
      buffer[begin..]
    }
  }

  function Call<S>(f: Callback<S>, user: S, window: string): Socket<S> {
    var r := f(user, window);
    Socket(r.user, window, r.begin, r.pause)
  }

  /** The redelivery loop: as long as the callback makes progress and leaves something, call again. */
  function Redeliver<S>(f: Callback<S>, s: Socket<S>): Socket<S>
    decreases |s.buffer|
  {
    if s.pause || s.begin == 0 || s.begin >= |s.buffer| then s
    else Redeliver(f, Call(f, s.user, s.buffer[s.begin..]))
  }

  /** An emptied buffer is reset to its start. */
  function Settle<S>(s: Socket<S>): Socket<S> {
    if s.begin == |s.buffer| then s.(buffer := "", begin := 0) else s
  }

  /** One whole ILibProcessAsyncSocket in which recv returns the fragment. */
  function Receive<S>(f: Callback<S>, s: Socket<S>, fragment: string): Socket<S> {
    var s1 := Redeliver(f, s);
    if s1.pause then s1
    else Settle(Redeliver(f, Call(f, s1.user, Settle(s1).buffer + fragment)))
  }

  // ----- runs: a socket, and the bytes its peer will still deliver

  datatype World<S> = World(socket: Socket<S>, incoming: string)

  /** The peer's next bytes arrive, at most k of them; or the owner of a paused connection resumes it. */
  datatype Event = Read(k: nat) | Resume

  /** `answer` is what resuming does to the user state. A socket is read only while it is not paused
      (`ILibAsyncSocket_PreSelect`), and only when there is something to read. */
  function Step<S>(f: Callback<S>, answer: S -> S, w: World<S>, e: Event): World<S> {
    match e
    case Resume =>
      if w.socket.pause then w.(socket := w.socket.(user := answer(w.socket.user), pause := false)) else w
    case Read(k) =>
      var n := if k <= |w.incoming| then k else |w.incoming|;
      if w.socket.pause || n == 0 then w
      else if Redeliver(f, w.socket).pause then w.(socket := Redeliver(f, w.socket))
      else World(Receive(f, w.socket, w.incoming[..n]), w.incoming[n..])
  }

  function Run<S>(f: Callback<S>, answer: S -> S, w: World<S>, events: seq<Event>): World<S>
    decreases |events|
  {
    if events == [] then w else Run(f, answer, Step(f, answer, w, events[0]), events[1..])
  }

  lemma {:induction false} RunThen<S>(f: Callback<S>, answer: S -> S, w: World<S>, events: seq<Event>, e: Event)
    ensures Run(f, answer, w, events + [e]) == Step(f, answer, Run(f, answer, w, events), e)
    decreases |events|
  {
    assert (events + [e])[0] == if events == [] then e else events[0];
    if events == [] {
      assert (events + [e])[1..] == [];
    } else {
      assert (events + [e])[1..] == events[1..] + [e];
      RunThen(f, answer, Step(f, answer, w, events[0]), events[1..], e);
    }
  }

  // ----- stream invariants

  /** A relation between the user state and all bytes not yet consumed, buffered or still to come.
      `running` is claimed of a connection that may be read, `parked` of a paused one. */
  datatype Invariant<!S> = Invariant(running: (S, string) -> bool, parked: (S, string) -> bool) {
    predicate Holds(user: S, rest: string, pause: bool) {
      if pause then parked(user, rest) else running(user, rest)
    }
    predicate HoldsOf(w: World<S>) {
      w.socket.InBounds() && Holds(w.socket.user, w.socket.Unread() + w.incoming, w.socket.pause)
    }
  }

  /** The callback keeps the invariant, whatever part of the remaining bytes its window shows. */
  ghost predicate Keeps<S(!new)>(f: Callback<S>, inv: Invariant<S>) {
    forall u: S, window: string, future: string :: inv.running(u, window + future) && window != "" ==>
      KeptBy(f(u, window), inv, window, future)
  }

  ghost predicate KeptBy<S>(r: Reply<S>, inv: Invariant<S>, window: string, future: string) {
    r.begin <= |window| && inv.Holds(r.user, window[r.begin..] + future, r.pause)
  }

  ghost predicate Resumes<S(!new)>(answer: S -> S, inv: Invariant<S>) {
    forall u: S, rest: string :: inv.parked(u, rest) ==> inv.running(answer(u), rest)
  }

  /** With all remaining bytes in its window the callback consumes some. */
  ghost predicate Progresses<S(!new)>(f: Callback<S>, inv: Invariant<S>) {
    forall u: S, window: string :: inv.running(u, window) && window != "" ==> f(u, window).begin > 0
  }

  lemma CallKeeps<S(!new)>(f: Callback<S>, inv: Invariant<S>, user: S, window: string, future: string)
    requires Keeps(f, inv) && inv.running(user, window + future) && window != ""
    ensures inv.HoldsOf(World(Call(f, user, window), future))
    ensures Progresses(f, inv) && future == "" ==> Call(f, user, window).begin > 0
  {
    assert KeptBy(f(user, window), inv, window, future);
    assert future == "" ==> window + future == window;
  }

  lemma {:induction false} RedeliverKeeps<S(!new)>(f: Callback<S>, inv: Invariant<S>, s: Socket<S>, future: string)
    requires Keeps(f, inv) && inv.HoldsOf(World(s, future))
    ensures inv.HoldsOf(World(Redeliver(f, s), future))
    ensures var r := Redeliver(f, s); r.pause || r.begin == 0 || r.begin == |r.buffer|
    ensures Progresses(f, inv) && future == "" && s.begin > 0 ==> Redeliver(f, s).begin > 0
    decreases |s.buffer|
  {
    if !(s.pause || s.begin == 0 || s.begin >= |s.buffer|) {
      CallKeeps(f, inv, s.user, s.buffer[s.begin..], future);
      hide Keeps, Progresses;
      RedeliverKeeps(f, inv, Call(f, s.user, s.buffer[s.begin..]), future);
    }
  }

  lemma SettleKeeps<S(!new)>(inv: Invariant<S>, s: Socket<S>, future: string)
    requires inv.HoldsOf(World(s, future))
    ensures inv.HoldsOf(World(Settle(s), future))
    ensures !s.pause && (s.begin == 0 || s.begin == |s.buffer|) ==>
      inv.running(s.user, Settle(s).buffer + future)
  {
    assert s.begin == |s.buffer| ==> s.buffer[s.begin..] == "";
    assert s.begin == 0 ==> s.buffer[s.begin..] == s.buffer;
  }

  lemma ReceiveKeeps<S(!new)>(f: Callback<S>, inv: Invariant<S>, s: Socket<S>, fragment: string, future: string)
    requires Keeps(f, inv) && inv.HoldsOf(World(s, fragment + future)) && fragment != ""
    requires !Redeliver(f, s).pause
    ensures inv.HoldsOf(World(Receive(f, s, fragment), future))
    ensures var r := Receive(f, s, fragment);
      Progresses(f, inv) && future == "" ==> r.pause || r.buffer == ""
  {
    RedeliverKeeps(f, inv, s, fragment + future);
    var s1 := Redeliver(f, s);
    SettleKeeps(inv, s1, fragment + future);
    var window := Settle(s1).buffer + fragment;
    Sequences.Assoc(Settle(s1).buffer, fragment, future);
    CallKeeps(f, inv, s1.user, window, future);
    RedeliverKeeps(f, inv, Call(f, s1.user, window), future);
    hide Keeps, Progresses;
    SettleKeeps(inv, Redeliver(f, Call(f, s1.user, window)), future);
  }

  lemma StepKeeps<S(!new)>(f: Callback<S>, answer: S -> S, inv: Invariant<S>, w: World<S>, e: Event)
    requires Keeps(f, inv) && Resumes(answer, inv) && inv.HoldsOf(w)
    ensures inv.HoldsOf(Step(f, answer, w, e))
  {
    match e
    case Resume =>
    case Read(k) =>
      var n := if k <= |w.incoming| then k else |w.incoming|;
      if !w.socket.pause && n != 0 {
        Sequences.TakeDrop(w.incoming, n);
        RedeliverKeeps(f, inv, w.socket, w.incoming);
        if !Redeliver(f, w.socket).pause {
          ReceiveKeeps(f, inv, w.socket, w.incoming[..n], w.incoming[n..]);
        }
      }
  }

  /** Every run keeps a stream invariant: no fragmentation of the stream and no timing of the
      resumptions can break what the callback keeps on whole windows. */
  lemma {:induction false} RunKeeps<S(!new)>(f: Callback<S>, answer: S -> S, inv: Invariant<S>, w: World<S>,
                                             events: seq<Event>)
    requires Keeps(f, inv) && Resumes(answer, inv) && inv.HoldsOf(w)
    ensures inv.HoldsOf(Run(f, answer, w, events))
    decreases |events|
  {
    if events != [] {
      StepKeeps(f, answer, inv, w, events[0]);
      RunKeeps(f, answer, inv, Step(f, answer, w, events[0]), events[1..]);
    }
  }

  /** Nothing is left behind: a read that takes the last bytes of the stream ends with an empty
      buffer, unless the callback paused the connection. */
  lemma LastReadDrains<S(!new)>(f: Callback<S>, answer: S -> S, inv: Invariant<S>, w: World<S>, k: nat)
    requires Keeps(f, inv) && Progresses(f, inv) && inv.HoldsOf(w)
    requires w.incoming != "" && Step(f, answer, w, Read(k)).incoming == ""
    ensures var s := Step(f, answer, w, Read(k)).socket; s.pause || s.buffer == ""
  {
    var n := |w.incoming|;
    assert w.incoming[..n] == w.incoming && w.incoming[n..] == "";
    assert w.incoming + "" == w.incoming;
    RedeliverKeeps(f, inv, w.socket, w.incoming);
    ReceiveKeeps(f, inv, w.socket, w.incoming, "");
  }

  /** A connection is paused only when the stream is used up. */
  ghost predicate ParksAtEnd<S(!new)>(inv: Invariant<S>) {
    forall u: S, rest: string :: inv.parked(u, rest) ==> rest == ""
  }

  /** In a run that pauses at the end at most, nothing is left in the buffer once the stream has been read. */
  lemma {:induction false} RunDrains<S(!new)>(f: Callback<S>, answer: S -> S, inv: Invariant<S>, w: World<S>,
                                              events: seq<Event>)
    requires Keeps(f, inv) && Progresses(f, inv) && Resumes(answer, inv) && ParksAtEnd(inv)
    requires inv.HoldsOf(w) && (w.incoming == "" ==> w.socket.buffer == "")
    ensures var end := Run(f, answer, w, events);
      inv.HoldsOf(end) && (end.incoming == "" ==> end.socket.buffer == "")
    decreases |events|
  {
    if events != [] {
      var next := Step(f, answer, w, events[0]);
      StepKeeps(f, answer, inv, w, events[0]);
      if w.incoming != "" && next.incoming == "" {
        LastReadDrains(f, answer, inv, w, events[0].k);
        PausedAtEnd(f, answer, inv, w, events[0].k);
      }
      hide Keeps, Progresses, Resumes, ParksAtEnd, Step;
      RunDrains(f, answer, inv, next, events[1..]);
    }
  }

  lemma PausedAtEnd<S(!new)>(f: Callback<S>, answer: S -> S, inv: Invariant<S>, w: World<S>, k: nat)
    requires ParksAtEnd(inv) && w.incoming != "" && Step(f, answer, w, Read(k)).incoming == ""
    requires inv.HoldsOf(Step(f, answer, w, Read(k)))
    ensures var s := Step(f, answer, w, Read(k)).socket; s.pause ==> s.buffer == ""
  {
    var next := Step(f, answer, w, Read(k));
    hide Redeliver;
    assert next.socket.pause ==> next.socket.Unread() + "" == "";
    assert next.socket.pause ==> next.socket.begin == |next.socket.buffer|;
  }

  /** A connection whose stream has been read to its end is not called again: what is left in its
      buffer stays there. */
  lemma {:induction false} NothingMoreHappens<S>(f: Callback<S>, answer: S -> S, w: World<S>, events: seq<Event>)
    requires w.incoming == "" && !w.socket.pause
    ensures Run(f, answer, w, events) == w
    decreases |events|
  {
    if events != [] {
      assert Step(f, answer, w, events[0]) == w;
      NothingMoreHappens(f, answer, w, events[1..]);
    }
  }

  // ----- the socket object

  const GROWTH := 4096
  const MIN_ROOM := 1024

  class AsyncSocket<S(!new)> {
    const onData: Callback<S>
    var user: S
    var PAUSE: bool
    var BeginPointer: nat
    var EndPointer: nat
    /** `buffer` with `MallocSize` its length. */
    var buffer: array<char>

    ghost var Received: string
    ghost var Consumed: string

    ghost predicate Valid()
      reads this, buffer
    {
      && Bounded(onData)
      && BeginPointer <= EndPointer
      && EndPointer + MIN_ROOM <= buffer.Length
      && (PAUSE || BeginPointer == 0)
      && Received == Consumed + buffer[BeginPointer..EndPointer]
    }

    ghost function View(): Socket<S>
      reads this, buffer
      requires EndPointer <= buffer.Length
    {
      Socket(user, buffer[..EndPointer], BeginPointer, PAUSE)
    }

    /** `ILibAsyncSocket_UseThisSocket`, receive side. */
    constructor UseThisSocket(onData: Callback<S>, user: S, initialSize: nat)
      requires Bounded(onData) && initialSize >= MIN_ROOM
      ensures Valid() && fresh(buffer) && this.onData == onData
      ensures View() == Socket(user, "", 0, false) && Received == ""
    {
      this.onData := onData;
      this.user := user;
      PAUSE := false;
      BeginPointer, EndPointer := 0, 0;
      buffer := new char[initialSize](i => '\0');
      Received, Consumed := "", "";
    }

    method Deliver()
      requires Bounded(onData) && BeginPointer == 0 && EndPointer <= buffer.Length
      requires Received == Consumed + buffer[..EndPointer]
      modifies this`user, this`BeginPointer, this`PAUSE, this`Consumed
      ensures BeginPointer <= EndPointer
      ensures Received == Consumed + buffer[BeginPointer..EndPointer]
      ensures View() == Call(onData, old(user), buffer[..EndPointer])
    {
      var r := onData(user, buffer[..EndPointer]);
      user, BeginPointer, PAUSE := r.user, r.begin, r.pause;
      Sequences.TakeDrop(buffer[..EndPointer], BeginPointer);
      Sequences.Assoc(Consumed, buffer[..BeginPointer], buffer[BeginPointer..EndPointer]);
      assert buffer[..EndPointer][..BeginPointer] == buffer[..BeginPointer];
      assert buffer[..EndPointer][BeginPointer..] == buffer[BeginPointer..EndPointer];
      Consumed := Consumed + buffer[..BeginPointer];
    }

    /** The overlapping memcpy of the unread bytes to the front, as a move. */
    method MoveToFront()
      requires BeginPointer <= EndPointer <= buffer.Length
      modifies this`BeginPointer, this`EndPointer, buffer
      ensures BeginPointer == 0 && EndPointer == old(EndPointer - BeginPointer)
      ensures buffer[..EndPointer] == old(buffer[BeginPointer..EndPointer])
    {
      forall i | 0 <= i < EndPointer - BeginPointer {
        buffer[i] := buffer[BeginPointer + i];
      }
      EndPointer := EndPointer - BeginPointer;
      BeginPointer := 0;
    }

    /** recv places its bytes after the kept ones. */
    method Append(data: string)
      requires EndPointer + |data| <= buffer.Length
      modifies this`EndPointer, buffer
      ensures EndPointer == old(EndPointer) + |data|
      ensures buffer[..EndPointer] == old(buffer[..EndPointer]) + data
    {
      forall i | 0 <= i < |data| {
        buffer[EndPointer + i] := data[i];
      }
      EndPointer := EndPointer + |data|;
    }

    /** `realloc(buffer, MallocSize + 4096)` */
    method Grow()
      requires EndPointer <= buffer.Length
      modifies this`buffer
      ensures fresh(buffer) && buffer.Length == old(buffer.Length) + GROWTH
      ensures buffer[..EndPointer] == old(buffer[..EndPointer])
    {
      var grown := new char[buffer.Length + GROWTH];
      forall i | 0 <= i < EndPointer {
        grown[i] := buffer[i];
      }
      buffer := grown;
    }

    /** The `while(PAUSE==0 && BeginPointer!=EndPointer && BeginPointer!=0)` loop: move the unread
        bytes to the front and deliver them again. */
    method RedeliverLoop()
      requires Bounded(onData) && BeginPointer <= EndPointer <= buffer.Length
      requires Received == Consumed + buffer[BeginPointer..EndPointer]
      modifies this`user, this`BeginPointer, this`EndPointer, this`PAUSE, this`Consumed, buffer
      ensures BeginPointer <= EndPointer <= old(EndPointer)
      ensures PAUSE || BeginPointer == 0 || BeginPointer == EndPointer
      ensures Received == Consumed + buffer[BeginPointer..EndPointer]
      ensures View() == Redeliver(onData, old(View()))
    {
      while !PAUSE && BeginPointer != EndPointer && BeginPointer != 0
        invariant BeginPointer <= EndPointer <= old(EndPointer)
        invariant Received == Consumed + buffer[BeginPointer..EndPointer]
        invariant Redeliver(onData, View()) == Redeliver(onData, old(View()))
        decreases EndPointer
      {
        assert View().buffer[BeginPointer..] == buffer[BeginPointer..EndPointer];
        MoveToFront();
        Deliver();
      }
    }

    /** One readable notification. The peer's bytes are `incoming`; recv takes a non-empty part of
        them that fits the free room, which is never less than MIN_ROOM. */
    method ProcessAsyncSocket(incoming: string) returns (taken: nat)
      requires Valid() && incoming != ""
      modifies this, buffer
      ensures Valid() && (buffer == old(buffer) || fresh(buffer))
      ensures taken <= |incoming| && Received == old(Received) + incoming[..taken]
      ensures taken == 0 ==> PAUSE && View() == Redeliver(onData, old(View()))
      ensures taken > 0 ==>
        !Redeliver(onData, old(View())).pause && View() == Receive(onData, old(View()), incoming[..taken])
    {
      RedeliverLoop();
      if PAUSE {
        return 0;
      }
      if BeginPointer == EndPointer {
        BeginPointer := 0;
        EndPointer := 0;
      } else if BeginPointer != 0 {
        // `EndPointer = BeginPointer` of line 492: never reached
        assert false;
      }
      ghost var kept := buffer[..EndPointer];
      assert kept == Settle(Redeliver(onData, old(View()))).buffer;
      var room := buffer.Length - EndPointer;
      assert room >= MIN_ROOM;
      taken :| 1 <= taken <= |incoming| && taken <= room;
      Append(incoming[..taken]);
      Received := Received + incoming[..taken];
      Sequences.Assoc(Consumed, kept, incoming[..taken]);
      Deliver();
      RedeliverLoop();
      if BeginPointer == EndPointer {
        BeginPointer := 0;
        EndPointer := 0;
      }
      if buffer.Length - EndPointer < MIN_ROOM {
        ghost var whole := buffer[..EndPointer];
        assert whole[BeginPointer..] == buffer[BeginPointer..EndPointer];
        Grow();
        assert whole[BeginPointer..] == buffer[BeginPointer..EndPointer];
      }
    }
  }
}
