/** The programme list of a channel: insertion in order of start, and the cursor that walks one day. */
module Epg {
  import Sequences

  datatype Program = Program(event_id: string, start: int, duration: int)

  const DAY := 24 * 60 * 60

  predicate Expired(p: Program, now: int) {
    p.start + p.duration <= now
  }

  predicate InDay(p: Program, day: int) {
    day <= p.start < day + DAY
  }

  /** Strictly increasing in start, so at most one program per start. */
  ghost predicate InOrder(l: seq<Program>) {
    forall j, k :: 0 <= j < k < |l| ==> l[j].start < l[k].start
  }

  function Without(l: seq<Program>, i: nat): (r: seq<Program>)
    requires i < |l|
    ensures |r| == |l| - 1
    ensures forall k :: 0 <= k < |r| ==> r[k] == l[if k < i then k else k + 1]
  {
    l[..i] + l[i + 1..]
  }

  function DropExpired(l: seq<Program>, now: int): (r: seq<Program>)
    ensures |r| <= |l|
    ensures r != [] ==> !Expired(r[0], now)
  {
    if l == [] || !Expired(l[0], now) then l else DropExpired(l[1..], now)
  }

  // ----- insertion

  /** The list from position i on, once the program is in: expired ones and the one it replaces are
      erased on the way to its place, and no further. */
  function Inserted(l: seq<Program>, p: Program, now: int): seq<Program> {
    if l == [] then [p]
    else if Expired(l[0], now) || l[0].start == p.start then Inserted(l[1..], p, now)
    else if l[0].start > p.start then [p] + l
    else [l[0]] + Inserted(l[1..], p, now)
  }

  function Earlier(l: seq<Program>, start: int, now: int): seq<Program> {
    if l == [] then []
    else if l[0].start < start && !Expired(l[0], now) then [l[0]] + Earlier(l[1..], start, now)
    else Earlier(l[1..], start, now)
  }

  function Later(l: seq<Program>, start: int): seq<Program> {
    if l == [] then []
    else if l[0].start > start then [l[0]] + Later(l[1..], start)
    else Later(l[1..], start)
  }

  lemma InOrderTail(l: seq<Program>)
    requires InOrder(l) && l != []
    ensures InOrder(l[1..]) && forall k :: 0 <= k < |l[1..]| ==> l[0].start < l[1..][k].start
  {
  }

  lemma {:induction false} LaterAll(l: seq<Program>, start: int)
    requires forall k :: 0 <= k < |l| ==> start < l[k].start
    ensures Later(l, start) == l
  {
    if l != [] {
      LaterAll(l[1..], start);
    }
  }

  lemma {:induction false} EarlierNone(l: seq<Program>, start: int, now: int)
    requires forall k :: 0 <= k < |l| ==> start <= l[k].start
    ensures Earlier(l, start, now) == []
  {
    if l != [] {
      EarlierNone(l[1..], start, now);
    }
  }

  /** What the list holds after the insertion: the earlier programs that run or are to come, the new one
      instead of any with its start, and the later ones from the first that has not expired on. */
  lemma {:induction false} InsertedIs(l: seq<Program>, p: Program, now: int)
    requires InOrder(l)
    ensures Inserted(l, p, now) == Earlier(l, p.start, now) + [p] + DropExpired(Later(l, p.start), now)
  {
    if l != [] {
      InOrderTail(l);
      if l[0].start > p.start {
        LaterAll(l, p.start);
        EarlierNone(l, p.start, now);
      }
      InsertedIs(l[1..], p, now);
      if l[0].start < p.start && !Expired(l[0], now) {
        var a, b, c := [l[0]], Earlier(l[1..], p.start, now), DropExpired(Later(l, p.start), now);
        assert a + (b + [p] + c) == a + b + [p] + c;
      }
    }
  }

  lemma {:induction false} EarlierOrder(l: seq<Program>, start: int, now: int)
    requires InOrder(l)
    ensures InOrder(Earlier(l, start, now))
    ensures forall p :: p in Earlier(l, start, now) <==> p in l && p.start < start && !Expired(p, now)
  {
    if l != [] {
      InOrderTail(l);
      EarlierOrder(l[1..], start, now);
      var r := Earlier(l[1..], start, now);
      assert l == [l[0]] + l[1..];
      forall k | 0 <= k < |r| ensures l[0].start < r[k].start {
        assert r[k] in r;
      }
    }
  }

  lemma {:induction false} LaterOrder(l: seq<Program>, start: int)
    requires InOrder(l)
    ensures InOrder(Later(l, start))
    ensures forall p :: p in Later(l, start) <==> p in l && p.start > start
  {
    if l != [] {
      InOrderTail(l);
      LaterOrder(l[1..], start);
      var r := Later(l[1..], start);
      assert l == [l[0]] + l[1..];
      forall k | 0 <= k < |r| ensures l[0].start < r[k].start {
        assert r[k] in r;
      }
    }
  }

  lemma {:induction false} DropOrder(l: seq<Program>, now: int)
    requires InOrder(l)
    ensures InOrder(DropExpired(l, now))
    ensures forall p :: p in DropExpired(l, now) ==> p in l
    ensures forall p :: p in l && !Expired(p, now) ==> p in DropExpired(l, now)
  {
    if l != [] && Expired(l[0], now) {
      InOrderTail(l);
      DropOrder(l[1..], now);
      assert l == [l[0]] + l[1..];
    }
  }

  /** The order survives; the new program is the only one of its start; no other program is new, and
      only expired ones are lost. */
  lemma {:induction false} InsertedKeeps(l: seq<Program>, p: Program, now: int)
    requires InOrder(l)
    ensures InOrder(Inserted(l, p, now)) && p in Inserted(l, p, now)
    ensures forall q :: q in Inserted(l, p, now) && q != p ==> q in l && q.start != p.start
    ensures forall q :: q in l && q.start != p.start && !Expired(q, now) ==> q in Inserted(l, p, now)
  {
    InsertedIs(l, p, now);
    EarlierOrder(l, p.start, now);
    LaterOrder(l, p.start);
    DropOrder(Later(l, p.start), now);
    hide Earlier, Later, DropExpired, Inserted;
    JoinOrder(Earlier(l, p.start, now), p, DropExpired(Later(l, p.start), now));
  }

  lemma JoinOrder(a: seq<Program>, p: Program, b: seq<Program>)
    requires InOrder(a) && (forall q :: q in a ==> q.start < p.start)
    requires InOrder(b) && (forall q :: q in b ==> p.start < q.start)
    ensures InOrder(a + [p] + b)
  {
    assert forall k :: 0 <= k < |a| ==> a[k] in a;
    assert forall k :: 0 <= k < |b| ==> b[k] in b;
  }

  /** Behind the first program that has not expired nothing is dropped. */
  lemma {:induction false} DroppedUnless(w: seq<Program>, now: int, q: Program)
    requires InOrder(w)
    ensures q in DropExpired(w, now) <==>
      q in w && exists r :: r in w && r.start <= q.start && now < r.start + r.duration
  {
    hide InOrder;
    if w != [] {
      assert w == [w[0]] + w[1..];
      InOrderTail(w);
      DroppedUnless(w[1..], now, q);
      if !Expired(w[0], now) {
        HeadIsFirst(w, q);
        assert q in w ==> w[0].start <= q.start;
      }
    }
  }

  lemma HeadIsFirst(w: seq<Program>, q: Program)
    requires InOrder(w) && w != []
    ensures w[0] in w && (q in w ==> w[0].start <= q.start)
  {
  }

  /** Exactly what the list holds behind an insertion: the new program; the earlier ones that have not ended; and
      the later ones, from the first that has not ended on. */
  lemma InsertedHas(l: seq<Program>, p: Program, now: int, q: Program)
    requires InOrder(l)
    ensures q in Inserted(l, p, now) <==>
      || q == p
      || (q in l && q.start < p.start && now < q.start + q.duration)
      || (q in l && q.start > p.start
          && exists r :: r in l && p.start < r.start <= q.start && now < r.start + r.duration)
  {
    InsertedIs(l, p, now);
    EarlierOrder(l, p.start, now);
    LaterOrder(l, p.start);
    DroppedUnless(Later(l, p.start), now, q);
    hide Earlier, Later, DropExpired, Inserted;
  }

  // ----- the cursor

  /** The programs of the day, in list order. */
  function Window(l: seq<Program>, day: int): (w: seq<Program>)
    ensures |w| <= |l|
  {
    if l == [] then []
    else if InDay(l[0], day) then [l[0]] + Window(l[1..], day)
    else Window(l[1..], day)
  }

  /** firstEpgEvent from position i on: expired programs are erased on the way to the first of the day. */
  function Seek(l: seq<Program>, i: nat, day: int, now: int): (r: (seq<Program>, nat))
    requires i <= |l|
    ensures i <= r.1 <= |r.0| && |r.0| - r.1 <= |l| - i
    decreases |l| - i
  {
    if i == |l| then (l, i)
    else if Expired(l[i], now) then Seek(Without(l, i), i, day, now)
    else if InDay(l[i], day) then (l, i)
    else Seek(l, i + 1, day, now)
  }

  /** nextEpgEvent from position i on: the first program that has not expired decides. */
  function Advance(l: seq<Program>, i: nat, now: int): (r: (seq<Program>, nat))
    requires i <= |l|
    ensures r.1 == i <= |r.0| <= |l|
    decreases |l| - i
  {
    if i < |l| && Expired(l[i], now) then Advance(Without(l, i), i, now) else (l, i)
  }

  /** What repeated calls return, the k-th call reading the k-th clock value. */
  function Visit(w: seq<Program>, clock: nat -> int, k: nat): seq<Program>
    decreases |w|
  {
    var u := DropExpired(w, clock(k));
    if u == [] then [] else [u[0]] + Visit(u[1..], clock, k + 1)
  }

  /** The window of a day: the programs that start within its 86400 seconds. */
  lemma {:induction false} WindowMeans(l: seq<Program>, day: int, p: Program)
    ensures p in Window(l, day) <==> p in l && day <= p.start < day + 86400
    ensures InOrder(l) ==> InOrder(Window(l, day))
  {
    if l != [] {
      assert l == [l[0]] + l[1..];
      WindowMeans(l[1..], day, p);
      var w := Window(l[1..], day);
      if InOrder(l) {
        InOrderTail(l);
        forall j | 0 <= j < |w| ensures l[0].start < w[j].start {
          WindowWithin(l[1..], day, w[j]);
        }
      }
    }
  }

  lemma {:induction false} WindowWithin(l: seq<Program>, day: int, p: Program)
    ensures p in Window(l, day) ==> p in l
  {
    if l != [] {
      assert l == [l[0]] + l[1..];
      WindowWithin(l[1..], day, p);
    }
  }

  lemma WindowStep(l: seq<Program>, i: nat, day: int)
    requires i < |l|
    ensures Window(l[i..], day) == (if InDay(l[i], day) then [l[i]] else []) + Window(l[i + 1..], day)
  {
    assert l[i..][1..] == l[i + 1..];
    assert [] + Window(l[i + 1..], day) == Window(l[i + 1..], day);
  }

  lemma WindowEnd(l: seq<Program>, day: int)
    ensures Window(l[|l|..], day) == [] && Window(l[0..], day) == Window(l, day)
  {
    assert l[0..] == l;
  }

  lemma TailWithout(l: seq<Program>, i: nat)
    requires i < |l|
    ensures Without(l, i)[i..] == l[i + 1..]
    ensures InOrder(l) ==> InOrder(Without(l, i))
  {
  }

  lemma DropHead(p: Program, w: seq<Program>, now: int)
    ensures DropExpired([p] + w, now) == if Expired(p, now) then DropExpired(w, now) else [p] + w
  {
    assert ([p] + w)[1..] == w;
  }

  /** The search stops at the first program of the day that has not expired. */
  lemma {:induction false} SeekMeets(l: seq<Program>, i: nat, day: int, now: int)
    requires i <= |l| && InOrder(l)
    ensures var (m, j) := Seek(l, i, day, now);
      && InOrder(m) && DropExpired(Window(l[i..], day), now) == Window(m[j..], day)
      && (j < |m| ==> InDay(m[j], day) && !Expired(m[j], now))
    decreases |l| - i
  {
    hide InOrder, Without, Window, DropExpired, Expired, InDay;
    if i == |l| {
      WindowEnd(l, day);
      NothingToDrop(now);
    } else {
      WindowStep(l, i, day);
      DropHead(l[i], Window(l[i + 1..], day), now);
      assert [] + Window(l[i + 1..], day) == Window(l[i + 1..], day);
      TailWithout(l, i);
      if Expired(l[i], now) {
        SeekMeets(Without(l, i), i, day, now);
      } else if !InDay(l[i], day) {
        SeekMeets(l, i + 1, day, now);
      }
    }
  }

  lemma NothingToDrop(now: int)
    ensures DropExpired([], now) == []
  {
  }

  lemma {:induction false} NoneInDay(l: seq<Program>, day: int)
    requires forall k :: 0 <= k < |l| ==> day + DAY <= l[k].start
    ensures Window(l, day) == []
  {
    if l != [] {
      NoneInDay(l[1..], day);
    }
  }

  /** The early end of the walk: a program of a later day means that none of this day is left. */
  lemma {:induction false} AdvanceMeets(l: seq<Program>, i: nat, day: int, now: int)
    requires i <= |l| && InOrder(l) && forall k :: i <= k < |l| ==> day <= l[k].start
    ensures var (m, j) := Advance(l, i, now);
      && InOrder(m) && DropExpired(Window(l[i..], day), now) == Window(m[j..], day)
      && (j < |m| ==> day <= m[j].start && !Expired(m[j], now))
      && (j < |m| && day + DAY <= m[j].start ==> Window(m[j..], day) == [])
    decreases |l| - i
  {
    if i == |l| {
      WindowEnd(l, day);
    } else {
      WindowStep(l, i, day);
      TailWithout(l, i);
      if Expired(l[i], now) {
        DropHead(l[i], Window(l[i + 1..], day), now);
        assert [] + Window(l[i + 1..], day) == Window(l[i + 1..], day);
        AdvanceMeets(Without(l, i), i, day, now);
      } else if day + DAY <= l[i].start {
        NoneInDay(l[i..], day);
      }
    }
  }

  // ----- what a walk returns

  /** The walk returns programs of the day in order, without repeats. */
  lemma {:induction false} VisitOrder(w: seq<Program>, clock: nat -> int, k: nat)
    requires InOrder(w)
    ensures InOrder(Visit(w, clock, k)) && forall p :: p in Visit(w, clock, k) ==> p in w
    decreases |w|
  {
    DropOrder(w, clock(k));
    var u := DropExpired(w, clock(k));
    if u != [] {
      InOrderTail(u);
      VisitOrder(u[1..], clock, k + 1);
      var r := Visit(u[1..], clock, k + 1);
      assert u == [u[0]] + u[1..];
      forall j | 0 <= j < |r| ensures u[0].start < r[j].start {
        assert r[j] in r;
      }
    }
  }

  /** None of them has expired when it is returned. */
  lemma {:induction false} VisitCurrent(w: seq<Program>, clock: nat -> int, k: nat, j: nat)
    requires j < |Visit(w, clock, k)|
    ensures !Expired(Visit(w, clock, k)[j], clock(k + j))
    decreases |w|
  {
    var u := DropExpired(w, clock(k));
    if j > 0 {
      VisitCurrent(u[1..], clock, k + 1, j - 1);
    }
  }

  /** How many programs of a list start earlier. */
  function Before(l: seq<Program>, start: int): nat {
    if l == [] then 0 else (if l[0].start < start then 1 else 0) + Before(l[1..], start)
  }

  lemma {:induction false} NoneBefore(l: seq<Program>, start: int)
    requires forall q :: q in l ==> start <= q.start
    ensures Before(l, start) == 0
  {
    if l != [] {
      assert l[0] in l;
      NoneBefore(l[1..], start);
    }
  }

  /** A program that the search of one call passes has expired, and comes before all that are left. */
  lemma {:induction false} DroppedOrLeft(w: seq<Program>, now: int, p: Program)
    requires InOrder(w) && p in w
    ensures var u := DropExpired(w, now);
      p in u || (Expired(p, now) && forall q :: q in u ==> p.start < q.start)
  {
    if Expired(w[0], now) {
      InOrderTail(w);
      DropOrder(w[1..], now);
      assert w == [w[0]] + w[1..];
      if p != w[0] {
        DroppedOrLeft(w[1..], now, p);
      } else {
        forall q | q in w[1..] ensures p.start < q.start {
          var k :| 0 <= k < |w[1..]| && w[1..][k] == q;
        }
      }
    }
  }

  /** Complete enumeration: a program of the day is returned if and only if it has not expired when it is
      reached, in the call behind those that returned the programs before it. */
  lemma {:induction false} VisitComplete(w: seq<Program>, clock: nat -> int, k: nat, p: Program)
    requires InOrder(w) && p in w
    ensures p in Visit(w, clock, k) <==> !Expired(p, clock(k + Before(Visit(w, clock, k), p.start)))
    decreases |w|
  {
    hide Visit, Before, InOrder, DropExpired, Expired;
    var u := DropExpired(w, clock(k));
    DropOrder(w, clock(k));
    DroppedOrLeft(w, clock(k), p);
    if p in u {
      HeadOfVisit(w, clock, k, p);
      if p != u[0] {
        InOrderTail(u);
        VisitComplete(u[1..], clock, k + 1, p);
      }
    } else {
      VisitWithin(w, clock, k);
      NoneBefore(Visit(w, clock, k), p.start);
    }
  }

  /** A walk over a day returns exactly the programs of the list that start in it and have not ended when they are
      reached, in order. */
  lemma DayIsComplete(l: seq<Program>, day: int, clock: nat -> int, p: Program)
    requires InOrder(l)
    ensures var r := Visit(Window(l, day), clock, 0);
      && (forall j, k :: 0 <= j < k < |r| ==> r[j].start < r[k].start)
      && (p in r <==> p in l && day <= p.start < day + 86400 && clock(Before(r, p.start)) < p.start + p.duration)
  {
    hide Window, Visit, Before;
    WindowMeans(l, day, p);
    var w := Window(l, day);
    VisitOrder(w, clock, 0);
    if p in w {
      VisitComplete(w, clock, 0, p);
    }
  }

  /** Of the programs left, the first is returned, and comes before all others. */
  lemma HeadOfVisit(w: seq<Program>, clock: nat -> int, k: nat, p: Program)
    requires InOrder(w) && InOrder(DropExpired(w, clock(k))) && p in DropExpired(w, clock(k))
    ensures var u := DropExpired(w, clock(k));
      var later := Visit(u[1..], clock, k + 1);
      if p == u[0] then p in Visit(w, clock, k) && Before(Visit(w, clock, k), p.start) == 0
      else
        && p in u[1..] && (p in Visit(w, clock, k) <==> p in later)
        && Before(Visit(w, clock, k), p.start) == 1 + Before(later, p.start)
  {
    var u := DropExpired(w, clock(k));
    var later := Visit(u[1..], clock, k + 1);
    InOrderTail(u);
    VisitOrder(u[1..], clock, k + 1);
    LaterThanHead(u, later);
    LaterThanHead(u, u[1..]);
    assert u == [u[0]] + u[1..];
    assert Visit(w, clock, k) == [u[0]] + later;
    hide InOrder, Visit, DropExpired;
    assert ([u[0]] + later)[1..] == later;
    NoneBefore(later, u[0].start);
  }

  lemma VisitWithin(w: seq<Program>, clock: nat -> int, k: nat)
    requires InOrder(w)
    ensures forall q :: q in Visit(w, clock, k) ==> q in DropExpired(w, clock(k))
  {
    var u := DropExpired(w, clock(k));
    DropOrder(w, clock(k));
    if u != [] {
      InOrderTail(u);
      VisitOrder(u[1..], clock, k + 1);
      assert u == [u[0]] + u[1..];
    }
  }

  lemma LaterThanHead(u: seq<Program>, later: seq<Program>)
    requires u != [] && InOrder(u) && forall q :: q in later ==> q in u[1..]
    ensures forall q :: q in later ==> u[0].start < q.start
  {
    forall q | q in later ensures u[0].start < q.start {
      var k :| 0 <= k < |u[1..]| && u[1..][k] == q;
    }
  }

  /** What the walk still returns, when it stands on this position. */
  function ToCome(l: seq<Program>, it: nat, day: int, clock: nat -> int, k: nat): seq<Program>
    requires it < |l|
  {
    [l[it]] + Visit(Window(l[it + 1..], day), clock, k)
  }

  lemma FirstReturns(l: seq<Program>, day: int, clock: nat -> int)
    requires InOrder(l)
    ensures var (m, j) := Seek(l, 0, day, clock(0));
      && InOrder(m) && (j < |m| ==> InDay(m[j], day))
      && Visit(Window(l, day), clock, 0) == if j < |m| then ToCome(m, j, day, clock, 1) else []
  {
    SeekMeets(l, 0, day, clock(0));
    WindowEnd(l, day);
    var (m, j) := Seek(l, 0, day, clock(0));
    WindowReached(m, j, day);
    hide InOrder, Seek, Window, DropExpired, InDay;
  }

  lemma WindowReached(m: seq<Program>, j: nat, day: int)
    requires j <= |m| && (j < |m| ==> InDay(m[j], day))
    ensures if j < |m| then Window(m[j..], day) == [m[j]] + Window(m[j + 1..], day) else Window(m[j..], day) == []
  {
    if j < |m| {
      WindowStep(m, j, day);
    } else {
      WindowEnd(m, day);
    }
  }

  lemma NextReturns(l: seq<Program>, it: nat, day: int, clock: nat -> int, k: nat)
    requires it < |l| && InOrder(l) && InDay(l[it], day)
    ensures var (m, j) := Advance(l, it + 1, clock(k));
      && InOrder(m) && (j < |m| && m[j].start < day + DAY ==> InDay(m[j], day))
      && Visit(Window(l[it + 1..], day), clock, k) ==
        if j < |m| && m[j].start < day + DAY then ToCome(m, j, day, clock, k + 1) else []
  {
    AdvanceMeets(l, it + 1, day, clock(k));
    var (m, j) := Advance(l, it + 1, clock(k));
    if j < |m| && m[j].start < day + DAY {
      WindowReached(m, j, day);
    } else if j == |m| {
      WindowEnd(m, day);
    }
    hide InOrder, Advance, Window, DropExpired;
  }

  // ----- the list and its cursor

  class ProgramList {
    var programs: seq<Program>

    constructor ()
      ensures programs == []
    {
      programs := [];
    }

    method InsertSorted(program: Program, now: int)
      requires InOrder(programs)
      modifies this
      ensures programs == Inserted(old(programs), program, now) && InOrder(programs)
    {
      InsertedKeeps(programs, program, now);
      ghost var all := Inserted(programs, program, now);
      var it := 0;
      hide InOrder, Without;
      assert programs[..0] + Inserted(programs[0..], program, now) == all by {
        assert programs[0..] == programs;
      }
      while it < |programs|
        invariant it <= |programs| && programs[..it] + Inserted(programs[it..], program, now) == all
        decreases |programs| - it
      {
        InsertStep(programs, it, program, now);
        if Expired(programs[it], now) {
          programs := Without(programs, it);
          continue;
        }
        if programs[it].start == program.start {
          programs := Without(programs, it);
          continue;
        }
        if programs[it].start > program.start {
          programs := programs[..it] + [program] + programs[it..];
          return;
        }
        it := it + 1;
      }
      assert programs[..it] == programs && programs[it..] == [];
      programs := programs + [program];
    }

    lemma InsertStep(l: seq<Program>, it: nat, p: Program, now: int)
      requires it < |l|
      ensures Expired(l[it], now) || l[it].start == p.start ==>
        l[..it] + Inserted(l[it..], p, now) == Without(l, it)[..it] + Inserted(Without(l, it)[it..], p, now)
      ensures !Expired(l[it], now) && l[it].start > p.start ==>
        l[..it] + Inserted(l[it..], p, now) == l[..it] + [p] + l[it..]
      ensures !Expired(l[it], now) && l[it].start < p.start ==>
        l[..it] + Inserted(l[it..], p, now) == l[..it + 1] + Inserted(l[it + 1..], p, now)
    {
      assert l[it..][1..] == l[it + 1..] && Without(l, it)[..it] == l[..it];
      TailWithout(l, it);
      assert l[..it] + ([l[it]] + Inserted(l[it + 1..], p, now)) == l[..it] + [l[it]] + Inserted(l[it + 1..], p, now);
      assert l[..it] + [l[it]] == l[..it + 1];
    }

    /** firstEpgEvent on the programs of the channel; the position is the handle, NULL is not found. */
    method FirstEpgEvent(day: int, now: int) returns (it: nat, found: bool)
      modifies this
      ensures (programs, it) == Seek(old(programs), 0, day, now)
      ensures found == (it < |programs|)
    {
      it := 0;
      hide Expired, InDay, Without;
      while it < |programs|
        invariant it <= |programs| && Seek(programs, it, day, now) == Seek(old(programs), 0, day, now)
        decreases |programs| - it
      {
        if Expired(programs[it], now) {
          programs := Without(programs, it);
          continue;
        }
        if InDay(programs[it], day) {
          return it, true;
        }
        it := it + 1;
      }
      found := false;
    }

    method NextEpgEvent(handle: nat, day: int, now: int) returns (it: nat, found: bool)
      requires handle < |programs|
      modifies this
      ensures (programs, it) == Advance(old(programs), handle + 1, now)
      ensures found == (it < |programs| && programs[it].start < day + DAY)
    {
      it := handle + 1;
      hide Expired, Without;
      while it < |programs|
        invariant it == handle + 1 <= |programs|
        invariant Advance(programs, it, now) == Advance(old(programs), handle + 1, now)
        decreases |programs|
      {
        if Expired(programs[it], now) {
          programs := Without(programs, it);
          continue;
        }
        return it, programs[it].start < day + DAY;
      }
      found := false;
    }

    /** A client that asks for the first event of a day and then for the next until there is none. */
    method WalkDay(day: int, clock: nat -> int) returns (events: seq<Program>)
      requires InOrder(programs)
      modifies this
      ensures events == Visit(Window(old(programs), day), clock, 0) && InOrder(programs)
    {
      hide InOrder, Seek, Advance, Window, Visit, InDay, ToCome;
      ghost var all := Visit(Window(programs, day), clock, 0);
      FirstReturns(programs, day, clock);
      var it: nat, found: bool := FirstEpgEvent(day, clock(0));
      var k: nat := 1;
      events := [];
      while found
        invariant InOrder(programs) && it <= |programs|
        invariant found ==> it < |programs|
        invariant found ==> InDay(programs[it], day) && events + ToCome(programs, it, day, clock, k) == all
        invariant !found ==> events == all
        decreases |programs| - it, found
      {
        ToComeStep(events, programs, it, day, clock, k);
        NextReturns(programs, it, day, clock, k);
        events := events + [programs[it]];
        it, found := NextEpgEvent(it, day, clock(k));
        k := k + 1;
      }
    }
  }

  lemma ToComeStep(events: seq<Program>, l: seq<Program>, it: nat, day: int, clock: nat -> int, k: nat)
    requires it < |l|
    ensures events + ToCome(l, it, day, clock, k) == events + [l[it]] + Visit(Window(l[it + 1..], day), clock, k)
  {
    Sequences.Assoc(events, [l[it]], Visit(Window(l[it + 1..], day), clock, k));
  }
}
