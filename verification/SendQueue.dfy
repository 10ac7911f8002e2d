/** The send half of `ILibAsyncSocket`: a linked queue of partially sent buffers in front of a kernel
    that takes any non-empty part of what it is offered, refuses for a while, or fails. */
module SendQueue {
  import Sequences

  /** `struct AsyncSocket_SendData` */
  class SendData {
    const buffer: string
    var bytesSent: nat
    var Next: SendData?

    constructor (buffer: string)
      ensures this.buffer == buffer && bytesSent == 0 && Next == null
    {
      this.buffer := buffer;
      bytesSent := 0;
      Next := null;
    }
  }

  function Following(nodes: seq<SendData>, i: nat): SendData? {
    if i + 1 < |nodes| then nodes[i + 1] else null
  }

  /** The nodes are a list linked by Next. */
  ghost predicate Chain(nodes: seq<SendData>)
    reads nodes
  {
    && (forall i, j :: 0 <= i < j < |nodes| ==> nodes[i] != nodes[j])
    && (forall i {:trigger nodes[i].Next} :: 0 <= i < |nodes| ==> nodes[i].Next == Following(nodes, i))
  }

  lemma ChainTail(nodes: seq<SendData>)
    requires Chain(nodes) && nodes != []
    ensures Chain(nodes[1..])
  {
    forall i | 0 <= i < |nodes| - 1 ensures nodes[1..][i].Next == Following(nodes[1..], i) {
      assert nodes[i + 1].Next == Following(nodes, i + 1);
    }
  }

  /** No node is completely sent. */
  ghost predicate Waiting(nodes: seq<SendData>)
    reads nodes
  {
    forall n :: n in nodes ==> n.bytesSent < |n.buffer|
  }

  /** The unsent bytes of the nodes, in order. */
  ghost function Unsent(nodes: seq<SendData>): string
    reads nodes
  {
    if nodes == [] then ""
    else
      var n := nodes[0];
      (if n.bytesSent <= |n.buffer| then n.buffer[n.bytesSent..] else "") + Unsent(nodes[1..])
  }

  lemma {:induction false} UnsentAppend(nodes: seq<SendData>, n: SendData)
    requires n.bytesSent <= |n.buffer|
    ensures Unsent(nodes + [n]) == Unsent(nodes) + n.buffer[n.bytesSent..]
  {
    var last := n.buffer[n.bytesSent..];
    if nodes == [] {
      assert Unsent([n]) == last + Unsent([]) == last;
      assert [] + [n] == [n];
    } else {
      assert (nodes + [n])[1..] == nodes[1..] + [n];
      UnsentAppend(nodes[1..], n);
      var first := nodes[0];
      var head := if first.bytesSent <= |first.buffer| then first.buffer[first.bytesSent..] else "";
      Sequences.Assoc(head, Unsent(nodes[1..]), last);
    }
  }

  // ----- 32-bit counters

  const UINT: nat := 0x1_0000_0000

  function Plus(a: nat, b: nat): (r: nat)
    ensures r < UINT
  {
    (a + b) % UINT
  }

  function Minus(a: nat, b: nat): (r: nat)
    ensures r < UINT
  {
    (a - b) % UINT
  }

  lemma PlusCounts(a: nat, b: nat)
    ensures Plus(a % UINT, b) == (a + b) % UINT
  {
  }

  lemma MinusCounts(a: nat, b: nat)
    requires b <= a
    ensures Minus(a % UINT, b) == (a - b) % UINT
  {
    var q := a / UINT;
    assert a % UINT - b == (a - b) - UINT * q;
    ModShift(a - b, q);
  }

  lemma {:induction false} ModShift(x: int, q: nat)
    ensures (x - UINT * q) % UINT == x % UINT
    decreases q
  {
    if q > 0 {
      ModShift(x - UINT, q - 1);
      assert x - UINT - UINT * (q - 1) == x - UINT * q;
    }
  }

  // ----- the kernel

  datatype SendResult = Sent(n: nat) | WouldBlock | Broken

  /** send(): some of the data, or nothing for now (at most patience times in a row), or an error. */
  method KernelSend(data: string, patience: nat) returns (r: SendResult, patience': nat)
    requires data != ""
    ensures r.Sent? ==> 1 <= r.n <= |data|
    ensures r.WouldBlock? ==> patience' < patience
  {
    patience' := patience;
    if
    case true =>
      r := Broken;
    case patience > 0 =>
      r := WouldBlock;
      patience' := patience - 1;
    case true =>
      var n: nat :| 1 <= n <= |data|;
      r := Sent(n);
      patience' :| patience' >= 0;
  }

  // ----- the socket

  const SEND_ON_CLOSED_SOCKET_ERROR := 2

  class AsyncSocketModule {
    var PendingSend_Head: SendData?
    var PendingSend_Tail: SendData?
    var PendingBytesToSend: nat
    var TotalBytesSent: nat
    /** internalSocket is not ~0 */
    var Open: bool

    ghost var Nodes: seq<SendData>
    /** The far side: what the kernel has taken since UseThisSocket. */
    var Wire: string
    /** What the senders have handed over since UseThisSocket. */
    ghost var Accepted: string
    /** A send has failed: the queue was dropped. */
    ghost var Failed: bool

    ghost predicate Linked()
      reads this, Nodes
    {
      && PendingSend_Head == (if Nodes == [] then null else Nodes[0])
      && PendingSend_Tail == (if Nodes == [] then null else Nodes[|Nodes| - 1])
      && Chain(Nodes) && Waiting(Nodes)
    }

    /** Nothing is lost, repeated or reordered, and the counters count. */
    ghost predicate Conserves()
      reads this, Nodes
    {
      && Wire + Unsent(Nodes) == Accepted
      && PendingBytesToSend == |Unsent(Nodes)| % UINT
      && TotalBytesSent == |Wire| % UINT
    }

    ghost predicate Valid()
      reads this, Nodes
    {
      Linked() && (!Failed ==> Conserves())
    }

    /** `ILibAsyncSocket_UseThisSocket` on a new module. */
    constructor UseThisSocket()
      ensures Valid() && Open && !Failed && Nodes == [] && Wire == "" && Accepted == ""
    {
      PendingSend_Head, PendingSend_Tail := null, null;
      PendingBytesToSend, TotalBytesSent := 0, 0;
      Open := true;
      Wire := "";
      Nodes, Accepted, Failed := [], "", false;
    }

    /** `ILibAsyncSocket_ClearPendingSend`: the nodes are freed one by one. PendingBytesToSend keeps
        its value. */
    method ClearPendingSend()
      requires Linked()
      modifies this`PendingSend_Head, this`PendingSend_Tail, this`Nodes
      ensures Linked() && Nodes == []
    {
      var data := PendingSend_Head;
      PendingSend_Tail := null;
      ghost var k := 0;
      while data != null
        invariant k <= |Nodes|
        invariant data == if k < |Nodes| then Nodes[k] else null
        decreases |Nodes| - k
      {
        data := data.Next;
        k := k + 1;
      }
      PendingSend_Head := null;
      Nodes := [];
    }

    /** `ILibAsyncSocket_Disconnect` */
    method Disconnect()
      requires Linked()
      modifies this`Open, this`PendingSend_Head, this`PendingSend_Tail, this`Nodes, this`Failed
      ensures Valid() && !Open && Failed && Nodes == []
    {
      Open := false;
      ClearPendingSend();
      Failed := true;
    }

    /** The accounts when the kernel takes n bytes of the head buffer. */
    method HeadSent(head: SendData, n: nat)
      requires Linked() && Nodes != [] && head == Nodes[0] && head.bytesSent + n <= |head.buffer|
      modifies this`PendingBytesToSend, this`TotalBytesSent, this`Wire, head`bytesSent
      ensures head.bytesSent == old(head.bytesSent) + n
      ensures Wire == old(Wire) + head.buffer[old(head.bytesSent)..][..n]
      ensures |Unsent(Nodes)| == |old(Unsent(Nodes))| - n
      ensures old(Conserves()) ==> Conserves()
    {
      ghost var first := head.buffer[head.bytesSent..];
      ghost var rest := Unsent(Nodes[1..]);
      ghost var before := Unsent(Nodes);
      assert before == first + rest;
      PendingBytesToSend := Minus(PendingBytesToSend, n);
      TotalBytesSent := Plus(TotalBytesSent, n);
      head.bytesSent := head.bytesSent + n;
      assert Unsent(Nodes[1..]) == rest;
      assert first[n..] == head.buffer[head.bytesSent..];
      Wire := Wire + head.buffer[head.bytesSent - n..][..n];
      Moved(old(Wire), first, n, rest);
      MinusCounts(|before|, n);
      PlusCounts(|old(Wire)|, n);
    }

    /** A completely sent head leaves the queue. */
    method DropHead()
      requires Nodes != [] && Nodes[0].bytesSent == |Nodes[0].buffer|
      requires PendingSend_Head == Nodes[0] && PendingSend_Tail == Nodes[|Nodes| - 1]
      requires Chain(Nodes) && Waiting(Nodes[1..])
      modifies this`PendingSend_Head, this`PendingSend_Tail, this`Nodes
      ensures Nodes == old(Nodes)[1..] && Linked()
      ensures Unsent(Nodes) == old(Unsent(Nodes))
    {
      assert Unsent(Nodes) == "" + Unsent(Nodes[1..]);
      assert Nodes[0].Next == Following(Nodes, 0);
      ChainTail(Nodes);
      if PendingSend_Head == PendingSend_Tail {
        PendingSend_Tail := null;
      }
      PendingSend_Head := PendingSend_Head.Next;
      Nodes := Nodes[1..];
    }

    /** A node joins the queue at its tail. */
    method Enqueue(data: SendData)
      requires Linked() && data !in Nodes && data.Next == null && data.bytesSent == 0 < |data.buffer|
      modifies this`PendingSend_Head, this`PendingSend_Tail, this`PendingBytesToSend, this`Nodes, this`Accepted
      modifies Nodes
      ensures Linked() && Nodes == old(Nodes) + [data]
      ensures Accepted == old(Accepted) + data.buffer
      ensures old(Conserves()) ==> Conserves()
    {
      hide Chain, Waiting;
      ghost var before := Unsent(Nodes);
      assert data.buffer[0..] == data.buffer;
      UnsentAppend(Nodes, data);
      PlusCounts(|before|, |data.buffer|);
      Sequences.Assoc(Wire, before, data.buffer);
      PendingBytesToSend := Plus(PendingBytesToSend, |data.buffer|);
      Link(data);
      SameUnsent(Nodes);
      Accepted := Accepted + data.buffer;
    }

    method Link(data: SendData)
      requires Linked() && data !in Nodes && data.Next == null && data.bytesSent < |data.buffer|
      modifies this`PendingSend_Head, this`PendingSend_Tail, this`Nodes, Nodes`Next
      ensures Linked() && Nodes == old(Nodes) + [data]
    {
      ghost var nodes := Nodes + [data];
      if PendingSend_Tail != null {
        PendingSend_Tail.Next := data;
      } else {
        PendingSend_Head := data;
      }
      PendingSend_Tail := data;
      forall i | 0 <= i < |nodes| ensures nodes[i].Next == Following(nodes, i) {
        if i + 1 < |Nodes| {
          assert Nodes[i].Next == Following(Nodes, i);
        }
      }
      Nodes := nodes;
    }

    /** The kernel has taken n bytes of the head buffer; a completely sent head is dropped. */
    method Progress(head: SendData, n: nat)
      requires Valid() && Nodes != [] && head == Nodes[0] && 1 <= n <= |head.buffer| - head.bytesSent
      modifies this`PendingSend_Head, this`PendingSend_Tail, this`PendingBytesToSend, this`TotalBytesSent
      modifies this`Nodes, this`Wire, head`bytesSent
      ensures Valid() && (Nodes == old(Nodes) || Nodes == old(Nodes)[1..])
      ensures |Unsent(Nodes)| < |old(Unsent(Nodes))|
      ensures old(Wire) <= Wire
    {
      HeadSent(head, n);
      assert Waiting(Nodes[1..]);
      if head.bytesSent == |head.buffer| {
        DropHead();
      } else {
        assert Waiting(Nodes);
      }
    }

    /** `ILibAsyncSocket_Send`: the result says 2 for a closed socket, 1 when bytes stay queued, and 0
        when everything, this buffer and all before it, has been sent. */
    method Send(buffer: string) returns (unblock: int)
      requires Valid() && buffer != ""
      modifies this, Nodes
      ensures Valid() && forall k :: 0 <= k < |Nodes| ==> Nodes[k] in old(Nodes) || fresh(Nodes[k])
      ensures !old(Open) ==> unblock == SEND_ON_CLOSED_SOCKET_ERROR && unchanged(this)
      ensures old(Open) ==> Accepted == old(Accepted) + buffer && old(Wire) <= Wire
      ensures unblock == SEND_ON_CLOSED_SOCKET_ERROR ==> !Open && (old(Open) ==> Failed)
      ensures unblock != SEND_ON_CLOSED_SOCKET_ERROR ==>
        && Open && Failed == old(Failed)
        && unblock == (if Nodes == [] then 0 else 1)
        && (Nodes == [] ==> old(Nodes) == [])
    {
      if !Open {
        return SEND_ON_CLOSED_SOCKET_ERROR;
      }
      var data := new SendData(buffer);
      var empty := PendingSend_Tail == null;
      Enqueue(data);
      if empty {
        unblock := SendFirst(data);
      } else {
        unblock := 1;
      }
    }

    /** The attempt to send a buffer that is alone in the queue. */
    method SendFirst(data: SendData) returns (unblock: int)
      requires Valid() && Open && Nodes == [data] && data.bytesSent == 0
      modifies this, data
      ensures Valid() && (Nodes == [] || Nodes == [data])
      ensures Accepted == old(Accepted) && old(Wire) <= Wire
      ensures unblock == SEND_ON_CLOSED_SOCKET_ERROR ==> !Open && Failed
      ensures unblock != SEND_ON_CLOSED_SOCKET_ERROR ==>
        Open && Failed == old(Failed) && unblock == (if Nodes == [] then 0 else 1)
    {
      hide Chain, Unsent;
      unblock := 1;
      var r, _ := KernelSend(data.buffer, 1);
      if r.Broken? {
        Disconnect();
        unblock := SEND_ON_CLOSED_SOCKET_ERROR;
      } else if r.Sent? {
        Progress(data, r.n);
        if PendingSend_Head == null {
          unblock := 0;
        }
      }
    }

    /** The write half of `ILibAsyncSocket_PostSelect` on a writable socket with a non-empty queue. The
        loop ends with the queue sent or, after a failure, dropped; only in the first case does it
        trigger OnSendOK. */
    method PostSelect(patience: nat) returns (triggerSendOK: bool)
      requires Valid() && Open && Nodes != []
      modifies this, Nodes
      ensures Valid() && Open && Nodes == [] && Accepted == old(Accepted) && old(Wire) <= Wire
      ensures triggerSendOK ==> Failed == old(Failed)
      ensures !triggerSendOK ==> Failed
      ensures triggerSendOK && !Failed ==> Wire == Accepted
    {
      hide Chain, Unsent;
      var left := patience;
      var done := false;
      triggerSendOK := true;
      while !done
        invariant Valid() && Open && Accepted == old(Accepted) && old(Wire) <= Wire
        invariant !done ==> Nodes != [] && triggerSendOK
        invariant done ==> Nodes == []
        invariant triggerSendOK ==> Failed == old(Failed)
        invariant !triggerSendOK ==> Failed
        invariant forall k :: 0 <= k < |Nodes| ==> Nodes[k] in old(Nodes)
        decreases !done, |Unsent(Nodes)|, left
      {
        var head := PendingSend_Head;
        assert head == Nodes[0] && head in old(Nodes);
        var r;
        r, left := KernelSend(head.buffer[head.bytesSent..], left);
        match r {
          case Sent(n) =>
            Progress(head, n);
            done := PendingSend_Head == null;
          case WouldBlock =>
          case Broken =>
            ClearPendingSend();
            Failed := true;
            triggerSendOK := false;
            done := true;
        }
      }
      DrainedIsSent();
    }

    /** An empty queue means that everything accepted is on the wire. */
    lemma DrainedIsSent()
      requires Valid() && Nodes == []
      ensures !Failed ==> Wire == Accepted && PendingBytesToSend == 0
    {
      assert Unsent([]) == "";
    }
  }

  /** Relinking does not change what is unsent. */
  twostate lemma {:induction false} SameUnsent(nodes: seq<SendData>)
    requires forall n :: n in nodes ==> n.bytesSent == old(n.bytesSent)
    ensures Unsent(nodes) == old(Unsent(nodes))
  {
    if nodes != [] {
      SameUnsent(nodes[1..]);
    }
  }

  lemma Moved(wire: string, first: string, n: nat, rest: string)
    requires n <= |first|
    ensures wire + first[..n] + (first[n..] + rest) == wire + (first + rest)
    ensures |first[n..] + rest| == |first + rest| - n
  {
    assert first[..n] + first[n..] == first;
  }
}
