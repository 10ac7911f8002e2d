/** The hash tree: a doubly linked list behind a sentinel, searched by key with the hash as a prefilter. */
module HashTree {

  type Key = seq<bv8>

  datatype Entry<V> = Entry(key: Key, value: V)

  // ----- what each operation does

  /** The index of the entry of this key. */
  function Find<V>(es: seq<Entry<V>>, key: Key): (i: nat)
    ensures i <= |es| && (i < |es| ==> es[i].key == key)
    ensures forall k :: 0 <= k < i ==> es[k].key != key
  {
    if es == [] || es[0].key == key then 0 else 1 + Find(es[1..], key)
  }

  /** A known key keeps its place; a new one goes to the end. */
  function Store<V>(es: seq<Entry<V>>, key: Key, value: V): seq<Entry<V>> {
    var i := Find(es, key);
    if i < |es| then es[i := Entry(key, value)] else es + [Entry(key, value)]
  }

  function Erase<V>(es: seq<Entry<V>>, key: Key): seq<Entry<V>> {
    var i := Find(es, key);
    if i < |es| then es[..i] + es[i + 1..] else es
  }

  function Get<V>(es: seq<Entry<V>>, key: Key, none: V): V {
    var i := Find(es, key);
    if i < |es| then es[i].value else none
  }

  // ----- the map behind it

  predicate Unique<V>(es: seq<Entry<V>>) {
    forall j, k :: 0 <= j < k < |es| ==> es[j].key != es[k].key
  }

  function MapOf<V>(es: seq<Entry<V>>): map<Key, V> {
    if es == [] then map[] else MapOf(es[1..])[es[0].key := es[0].value]
  }

  lemma {:induction false} MapHas<V>(es: seq<Entry<V>>, key: Key)
    ensures key in MapOf(es) <==> Find(es, key) < |es|
    ensures key in MapOf(es) ==> MapOf(es)[key] == es[Find(es, key)].value
  {
    if es != [] {
      MapHas(es[1..], key);
    }
  }

  /** Get and Has answer as the map does. */
  lemma {:induction false} GetAgrees<V>(es: seq<Entry<V>>, key: Key, none: V)
    ensures Get(es, key, none) == if key in MapOf(es) then MapOf(es)[key] else none
  {
    MapHas(es, key);
  }

  lemma {:induction false} StoreAgrees<V>(es: seq<Entry<V>>, key: Key, value: V)
    ensures MapOf(Store(es, key, value)) == MapOf(es)[key := value]
    ensures Unique(es) ==> Unique(Store(es, key, value))
  {
    var r := Store(es, key, value);
    forall other ensures other in MapOf(r) <==> other in MapOf(es) || other == key
      ensures other in MapOf(r) ==> MapOf(r)[other] == if other == key then value else MapOf(es)[other]
    {
      MapHas(es, other);
      MapHas(r, other);
      FindStored(es, key, value, other);
    }
    hide MapOf;
  }

  lemma {:induction false} FindStored<V>(es: seq<Entry<V>>, key: Key, value: V, other: Key)
    ensures var r := Store(es, key, value);
      Find(r, other) == if other != key && Find(es, other) == |es| then |r| else Find(es, other)
  {
    var r, i, j := Store(es, key, value), Find(es, key), Find(es, other);
    assert forall k :: 0 <= k < |es| ==> r[k].key == es[k].key;
    FindIs(r, other, if other != key && j == |es| then |r| else j);
  }

  /** The index is the one place that meets its description. */
  lemma {:induction false} FindIs<V>(es: seq<Entry<V>>, key: Key, i: nat)
    requires i <= |es| && (i < |es| ==> es[i].key == key) && forall k :: 0 <= k < i ==> es[k].key != key
    ensures Find(es, key) == i
  {
  }

  lemma {:induction false} EraseAgrees<V>(es: seq<Entry<V>>, key: Key)
    requires Unique(es)
    ensures MapOf(Erase(es, key)) == MapOf(es) - {key} && Unique(Erase(es, key))
  {
    var r := Erase(es, key);
    forall other ensures other in MapOf(r) <==> other in MapOf(es) && other != key
      ensures other in MapOf(r) ==> MapOf(r)[other] == MapOf(es)[other]
    {
      MapHas(es, other);
      MapHas(r, other);
      FindErased(es, key, other);
    }
    hide MapOf;
  }

  lemma {:induction false} FindErased<V>(es: seq<Entry<V>>, key: Key, other: Key)
    requires Unique(es)
    ensures var r, i, j := Erase(es, key), Find(es, key), Find(es, other);
      Find(r, other) == if other == key then |r| else if j < i || i == |es| then j else j - 1
  {
    var r, i, j := Erase(es, key), Find(es, key), Find(es, other);
    FindIs(r, other, if other == key then |r| else if j < i || i == |es| then j else j - 1);
  }

  // ----- runs

  datatype Operation<V> = Add(key: Key, value: V) | Delete(key: Key)

  function RunEntries<V>(ops: seq<Operation<V>>): seq<Entry<V>> {
    if ops == [] then []
    else
      var es := RunEntries(ops[..|ops| - 1]);
      match ops[|ops| - 1]
      case Add(key, value) => Store(es, key, value)
      case Delete(key) => Erase(es, key)
  }

  function RunMap<V>(ops: seq<Operation<V>>): map<Key, V> {
    if ops == [] then map[]
    else
      var m := RunMap(ops[..|ops| - 1]);
      match ops[|ops| - 1]
      case Add(key, value) => m[key := value]
      case Delete(key) => m - {key}
  }

  /** After every run of additions and deletions the list holds what a plain map would, each key once. */
  lemma {:induction false} RunAgrees<V>(ops: seq<Operation<V>>)
    ensures MapOf(RunEntries(ops)) == RunMap(ops) && Unique(RunEntries(ops))
  {
    if ops != [] {
      var init := ops[..|ops| - 1];
      RunAgrees(init);
      hide MapOf, Unique, Store, Erase;
      match ops[|ops| - 1]
      case Add(key, value) => StoreAgrees(RunEntries(init), key, value);
      case Delete(key) => EraseAgrees(RunEntries(init), key);
    } else {
      assert Unique<V>([]);
      hide Unique;
    }
  }

  // ----- the hash

  /** Four bytes from position at on, as a little-endian integer; bytes past the end count as zero. */
  function Word(key: Key, at: nat): bv32 {
    Byte(key, at) | (Byte(key, at + 1) << 8) | (Byte(key, at + 2) << 16) | (Byte(key, at + 3) << 24)
  }

  function Byte(key: Key, at: nat): bv32 {
    if at < |key| then key[at] as bv32 else 0
  }

  function HashValue(key: Key): bv32 {
    if |key| <= 4 then Word(key, 0)
    else
      var ends := Word(key, 0) ^ Word(key, |key| - 4);
      if |key| >= 10 then ends ^ Word(key, |key| / 2) else ends
  }

  // ----- the list

  class HashNode<V> {
    const KeyHash: bv32
    const KeyValue: Key
    var Data: V
    var Next: HashNode?<V>
    var Prev: HashNode?<V>

    constructor (hash: bv32, key: Key, data: V)
      ensures KeyHash == hash && KeyValue == key && Data == data && Next == null && Prev == null
    {
      KeyHash, KeyValue, Data, Next, Prev := hash, key, data, null, null;
    }
  }

  ghost function NodeAt<V>(nodes: seq<HashNode<V>>, k: int): HashNode?<V> {
    if 0 <= k < |nodes| then nodes[k] else null
  }

  ghost predicate Forward<V>(nodes: seq<HashNode<V>>)
    reads nodes`Next
  {
    forall k {:trigger nodes[k].Next} :: 0 <= k < |nodes| ==> nodes[k].Next == NodeAt(nodes, k + 1)
  }

  ghost predicate Backward<V>(nodes: seq<HashNode<V>>)
    reads nodes`Prev
  {
    forall k {:trigger nodes[k].Prev} :: 0 <= k < |nodes| ==> nodes[k].Prev == NodeAt(nodes, k - 1)
  }

  ghost predicate AllDifferent<V>(nodes: seq<HashNode<V>>) {
    forall j, k :: 0 <= j < k < |nodes| ==> nodes[j] != nodes[k]
  }

  /** The sentinel has the empty key and its hash; the other nodes hold the entries. */
  ghost predicate Represent<V>(nodes: seq<HashNode<V>>, es: seq<Entry<V>>)
    reads nodes`Data
  {
    && |nodes| == |es| + 1
    && nodes[0].KeyValue == []
    && (forall k :: 0 <= k < |nodes| ==> nodes[k].KeyHash == HashValue(nodes[k].KeyValue))
    && (forall k {:trigger es[k]} :: 0 <= k < |es| ==>
      es[k].key != [] && Entry(nodes[k + 1].KeyValue, nodes[k + 1].Data) == es[k])
  }

  class HashTree<V> {
    const Root: HashNode<V>
    const NULL: V
    ghost var Nodes: seq<HashNode<V>>
    ghost var Entries: seq<Entry<V>>

    ghost predicate Valid()
      reads this, Nodes
    {
      && Nodes != [] && Nodes[0] == Root && Forward(Nodes) && Backward(Nodes) && AllDifferent(Nodes)
      && Represent(Nodes, Entries) && Unique(Entries)
    }

    constructor (none: V)
      ensures Valid() && Entries == [] && NULL == none
    {
      var sentinel := new HashNode<V>(0, [], none);
      Root, NULL, Nodes, Entries := sentinel, none, [sentinel], [];
      assert HashValue([]) == 0;
    }

    /** ILibFindEntry without creation: the hash decides nothing, only the key does. */
    method FindEntry(key: Key) returns (current: HashNode?<V>)
      requires Valid()
      ensures current == if Find(Entries, key) < |Entries| then NodeAt(Nodes, Find(Entries, key) + 1) else null
    {
      current := FindOrLast(key);
      if current != null && current.KeyValue != key {
        current := null;
      }
    }

    /** The node of the key, or the last node of the list; NULL for the empty key. */
    method FindOrLast(key: Key) returns (current: HashNode?<V>)
      requires Valid()
      ensures key == [] ==> current == null && Find(Entries, key) == |Entries|
      ensures key != [] ==> var i := Find(Entries, key);
        && current == NodeAt(Nodes, if i < |Entries| then i + 1 else |Entries|) && current != null
        && (current.KeyValue == key <==> i < |Entries|)
    {
      var hash := HashValue(key);
      if |key| == 0 {
        return null;
      }
      current := Root;
      ghost var k := 0;
      hide Backward, AllDifferent, HashValue;
      while !(current.KeyHash == hash && current.KeyValue == key) && current.Next != null
        invariant k <= Find(Entries, key) + 1 && k < |Nodes| && current == Nodes[k]
        decreases |Nodes| - k
      {
        assert current.KeyValue != key;
        assert k > 0 ==> Entries[k - 1].key == Nodes[k].KeyValue;
        current, k := current.Next, k + 1;
      }
      assert k > 0 ==> Entries[k - 1].key == Nodes[k].KeyValue;
    }

    /** ILibFindEntry with creation: a new node, with no data yet, goes behind the last one. */
    method FindOrCreate(key: Key) returns (current: HashNode<V>)
      requires Valid() && key != []
      modifies this`Nodes, this`Entries, Nodes`Next
      ensures Valid() && Entries == Store(old(Entries), key, Get(old(Entries), key, NULL))
      ensures Find(old(Entries), key) + 1 < |Nodes| && current == Nodes[Find(old(Entries), key) + 1]
      ensures forall k :: 0 <= k < |Nodes| ==> Nodes[k] in old(Nodes) || fresh(Nodes[k])
    {
      Lengths();
      hide Valid, Find;
      current := FindOrLast(key);
      if current.KeyValue != key {
        current := Append(current, key);
      } else {
        assert Entries[Find(Entries, key)] == Entry(key, Get(Entries, key, NULL));
      }
    }

    lemma Lengths()
      requires Valid()
      ensures |Nodes| == |Entries| + 1
    {
    }

    method Append(last: HashNode<V>, key: Key) returns (current: HashNode<V>)
      requires Valid() && key != [] && Find(Entries, key) == |Entries| && last == NodeAt(Nodes, |Entries|)
      modifies this`Nodes, this`Entries, Nodes`Next
      ensures Valid() && Entries == old(Entries) + [Entry(key, NULL)] && current == Nodes[|Nodes| - 1]
      ensures forall k :: 0 <= k < |Nodes| ==> Nodes[k] in old(Nodes) || fresh(Nodes[k])
      ensures |Nodes| == |old(Entries)| + 2
    {
      Lengths();
      hide Forward, Backward, AllDifferent, HashValue, Find, Unique, Represent;
      current := new HashNode(HashValue(key), key, NULL);
      last.Next := current;
      current.Prev := last;
      Appended(current);
      Grow(current);
    }

    ghost method Grow(node: HashNode<V>)
      requires Nodes != [] && Root == Nodes[0] && Find(Entries, node.KeyValue) == |Entries| && Unique(Entries)
      requires Forward(Nodes + [node]) && Backward(Nodes + [node]) && AllDifferent(Nodes + [node])
      requires Represent(Nodes + [node], Entries + [Entry(node.KeyValue, node.Data)])
      modifies this`Nodes, this`Entries
      ensures Valid() && Entries == old(Entries) + [Entry(node.KeyValue, node.Data)] && Nodes == old(Nodes) + [node]
    {
      StoreAgrees(Entries, node.KeyValue, node.Data);
      hide Forward, Backward, AllDifferent, Represent, Unique, Find, MapOf;
      Nodes := Nodes + [node];
      Entries := Entries + [Entry(node.KeyValue, node.Data)];
    }

    twostate lemma Appended(new node: HashNode<V>)
      requires Nodes == old(Nodes) && Entries == old(Entries) && node !in Nodes && Nodes != []
      requires old(Forward(Nodes)) && old(Backward(Nodes)) && AllDifferent(Nodes)
      requires Represent(Nodes, Entries)
      requires node.Next == null && node.Prev == Nodes[|Nodes| - 1] && Nodes[|Nodes| - 1].Next == node
      requires node.KeyValue != [] && node.KeyHash == HashValue(node.KeyValue)
      requires forall k :: 0 <= k < |Nodes| - 1 ==> Nodes[k].Next == old(Nodes[k].Next)
      requires forall k :: 0 <= k < |Nodes| ==> Nodes[k].Prev == old(Nodes[k].Prev)
      ensures Forward(Nodes + [node]) && Backward(Nodes + [node]) && AllDifferent(Nodes + [node])
      ensures Represent(Nodes + [node], Entries + [Entry(node.KeyValue, node.Data)])
    {
      hide HashValue;
    }

    method HasEntry(key: Key) returns (has: bool)
      requires Valid()
      ensures has <==> key in MapOf(Entries)
    {
      MapHas(Entries, key);
      var n := FindEntry(key);
      has := n != null;
    }

    method GetEntry(key: Key) returns (value: V)
      requires Valid()
      ensures value == if key in MapOf(Entries) then MapOf(Entries)[key] else NULL
    {
      MapHas(Entries, key);
      var n := FindEntry(key);
      if n == null {
        value := NULL;
      } else {
        value := n.Data;
        assert Entries[Find(Entries, key)].value == value;
      }
    }

    method AddEntry(key: Key, value: V)
      requires Valid() && key != []
      modifies this`Nodes, this`Entries, Nodes`Next, Nodes`Data
      ensures Valid() && Entries == Store(old(Entries), key, value)
      ensures MapOf(Entries) == MapOf(old(Entries))[key := value]
      ensures forall k :: 0 <= k < |Nodes| ==> Nodes[k] in old(Nodes) || fresh(Nodes[k])
    {
      hide Valid, Find, MapOf;
      StoreAgrees(Entries, key, value);
      ghost var i := Find(Entries, key);
      var n := FindOrCreate(key);
      Lengths();
      SetData(n, value, i);
    }

    method SetData(n: HashNode<V>, value: V, ghost i: nat)
      requires Valid() && i < |Entries| && i + 1 < |Nodes| && n == Nodes[i + 1]
      modifies this`Entries, n`Data
      ensures Valid() && Entries == old(Entries)[i := Entry(old(Entries)[i].key, value)]
    {
      hide Forward, Backward, HashValue;
      n.Data := value;
      Entries := Entries[i := Entry(Entries[i].key, value)];
    }

    method DeleteEntry(key: Key)
      requires Valid()
      modifies this`Nodes, this`Entries, Nodes`Next, Nodes`Prev
      ensures Valid() && Entries == Erase(old(Entries), key)
      ensures MapOf(Entries) == MapOf(old(Entries)) - {key}
      ensures forall k :: 0 <= k < |Nodes| ==> Nodes[k] in old(Nodes)
    {
      Lengths();
      assert Unique(Entries);
      hide Valid, Find, MapOf, Unique;
      EraseAgrees(Entries, key);
      var n := FindEntry(key);
      if n != null {
        Unlink(n, Find(Entries, key));
      }
    }

    /** The node is never the sentinel, so it always has a predecessor. */
    method Unlink(n: HashNode<V>, ghost i: nat)
      requires Valid() && i < |Entries| && n == NodeAt(Nodes, i + 1)
      requires Unique(Entries[..i] + Entries[i + 1..])
      modifies this`Nodes, this`Entries, Nodes`Next, Nodes`Prev
      ensures Valid() && Entries == old(Entries)[..i] + old(Entries)[i + 1..]
      ensures forall k :: 0 <= k < |Nodes| ==> Nodes[k] in old(Nodes)
    {
      Lengths();
      hide Forward, Backward, AllDifferent, Represent, Cut, Unique;
      Neighbours(i + 1);
      n.Prev.Next := n.Next;
      if n.Next != null {
        n.Next.Prev := n.Prev;
      }
      NextSkips(i + 1);
      PrevSkips(i + 1);
      Shrink(i);
    }

    ghost method Shrink(i: nat)
      requires i < |Entries| && i + 1 < |Nodes| && Root == Nodes[0]
      requires Forward(Cut(Nodes, i + 1)) && Backward(Cut(Nodes, i + 1))
      requires AllDifferent(Nodes) && Represent(Nodes, Entries)
      requires Unique(Entries[..i] + Entries[i + 1..])
      modifies this`Nodes, this`Entries
      ensures Valid() && Entries == old(Entries)[..i] + old(Entries)[i + 1..]
      ensures forall k :: 0 <= k < |Nodes| ==> Nodes[k] in old(Nodes)
    {
      hide Forward, Backward, AllDifferent, Represent, Cut, Unique;
      CutStands(i);
      Nodes := Cut(Nodes, i + 1);
      Entries := Entries[..i] + Entries[i + 1..];
    }

    lemma Neighbours(i: nat)
      requires Forward(Nodes) && Backward(Nodes) && AllDifferent(Nodes) && i < |Nodes|
      ensures Nodes[i].Next == NodeAt(Nodes, i + 1) && Nodes[i].Prev == NodeAt(Nodes, i - 1)
      ensures forall k :: 0 <= k < |Nodes| && k != i - 1 && i > 0 ==> Nodes[k] != Nodes[i - 1]
      ensures forall k :: 0 <= k < |Nodes| && k != i + 1 && i + 1 < |Nodes| ==> Nodes[k] != Nodes[i + 1]
    {
    }

    lemma CutStands(i: nat)
      requires AllDifferent(Nodes) && i < |Entries| && i + 1 < |Nodes| && Represent(Nodes, Entries)
      ensures AllDifferent(Cut(Nodes, i + 1)) && Cut(Nodes, i + 1) != [] && Cut(Nodes, i + 1)[0] == Nodes[0]
      ensures Represent(Cut(Nodes, i + 1), Entries[..i] + Entries[i + 1..])
      ensures forall n :: n in Cut(Nodes, i + 1) ==> n in Nodes
    {
      hide HashValue;
    }

    twostate lemma NextSkips(i: nat)
      requires i < |Nodes| && Nodes == old(Nodes) && old(Forward(Nodes))
      requires i > 0 ==> Nodes[i - 1].Next == NodeAt(Nodes, i + 1)
      requires forall k :: 0 <= k < |Nodes| && k != i && k != i - 1 ==> Nodes[k].Next == old(Nodes[k].Next)
      ensures Forward(Cut(Nodes, i))
    {
      forall k | 0 <= k < |Nodes| - 1 ensures Cut(Nodes, i)[k].Next == NodeAt(Cut(Nodes, i), k + 1) {
      }
    }

    twostate lemma PrevSkips(i: nat)
      requires i < |Nodes| && Nodes == old(Nodes) && old(Backward(Nodes))
      requires i + 1 < |Nodes| ==> Nodes[i + 1].Prev == NodeAt(Nodes, i - 1)
      requires forall k :: 0 <= k < |Nodes| && k != i && k != i + 1 ==> Nodes[k].Prev == old(Nodes[k].Prev)
      ensures Backward(Cut(Nodes, i))
    {
      forall k | 0 <= k < |Nodes| - 1 ensures Cut(Nodes, i)[k].Prev == NodeAt(Cut(Nodes, i), k - 1) {
      }
    }

    /** An enumerator starts at the sentinel. */
    method GetEnumerator() returns (en: HashNodeEnumerator<V>)
      requires Valid()
      ensures fresh(en) && en.Node == NodeAt(Nodes, 0)
    {
      en := new HashNodeEnumerator(Root);
    }

    /** Moving an enumerator until it answers 1 visits every entry once, in insertion order. */
    method Enumerate() returns (visited: seq<Entry<V>>)
      requires Valid()
      ensures visited == Entries
    {
      var en := GetEnumerator();
      visited := [];
      ghost var k := 0;
      var end := en.MoveNext();
      while end == 0
        invariant k <= |Entries| && en.Node == NodeAt(Nodes, k + 1) && (end == 0 <==> en.Node != null)
        invariant fresh(en) && visited == Entries[..k]
        decreases |Entries| - k
      {
        var key, value := en.GetValue();
        assert Entries[k] == Entry(key, value);
        visited := visited + [Entry(key, value)];
        end := en.MoveNext();
        k := k + 1;
      }
    }
  }

  ghost function Cut<V>(nodes: seq<HashNode<V>>, i: nat): (r: seq<HashNode<V>>)
    requires i < |nodes|
    ensures |r| == |nodes| - 1
    ensures forall k :: 0 <= k < |r| ==> r[k] == nodes[if k < i then k else k + 1]
  {
    nodes[..i] + nodes[i + 1..]
  }

  class HashNodeEnumerator<V> {
    var Node: HashNode?<V>

    constructor (node: HashNode<V>)
      ensures Node == node
    {
      Node := node;
    }

    /** ILibHashTree_MoveNext: 0 while there is a next entry. */
    method MoveNext() returns (end: int)
      modifies this
      ensures Node == if old(Node) == null then null else old(Node.Next)
      ensures end == if Node != null then 0 else 1
    {
      if Node != null {
        Node := Node.Next;
        end := if Node != null then 0 else 1;
      } else {
        end := 1;
      }
    }

    method GetValue() returns (key: Key, value: V)
      requires Node != null
      ensures key == Node.KeyValue && value == Node.Data
    {
      key, value := Node.KeyValue, Node.Data;
    }
  }
}
