/** Facts about sequences, stated apart so that each is proved in a small context. */
module Sequences {

  lemma Assoc<T>(a: seq<T>, b: seq<T>, c: seq<T>)
    ensures a + (b + c) == a + b + c
  {
  }

  lemma DropWithin<T>(a: seq<T>, b: seq<T>, k: nat)
    requires k <= |a|
    ensures (a + b)[k..] == a[k..] + b
    ensures (a + b)[..k] == a[..k]
  {
  }

  lemma DropAll<T>(a: seq<T>, b: seq<T>)
    ensures (a + b)[|a|..] == b
    ensures (a + b)[..|a|] == a
  {
  }

  lemma DropDrop<T>(a: seq<T>, j: nat, k: nat)
    requires j + k <= |a|
    ensures a[j..][k..] == a[j + k..]
  {
  }

  lemma TakeDrop<T>(a: seq<T>, k: nat)
    requires k <= |a|
    ensures a[..k] + a[k..] == a
  {
  }

  lemma CutOut<T>(s: seq<T>, d: seq<T>, i: nat)
    requires i <= |s| && d <= s[i..]
    ensures i + |d| <= |s| && s[..i] + d + s[i + |d|..] == s
  {
    assert s[i..][..|d|] == d;
  }

  /** A stream known to start with a, seen through a window that covers a. */
  lemma CutPrefix<T>(w: seq<T>, future: seq<T>, a: seq<T>, rest: seq<T>)
    requires w + future == a + rest && |a| <= |w|
    ensures w[..|a|] == a && w[|a|..] + future == rest
  {
    assert w[..|a|] == (w + future)[..|a|] == (a + rest)[..|a|];
    assert w[|a|..] + future == (w + future)[|a|..] == (a + rest)[|a|..];
  }

  /** The same through a window that covers only a part of a. */
  lemma CutInside<T>(w: seq<T>, future: seq<T>, a: seq<T>, rest: seq<T>)
    requires w + future == a + rest && |w| <= |a|
    ensures a[..|w|] == w && future == a[|w|..] + rest
  {
    assert w == (w + future)[..|w|] == (a + rest)[..|w|];
    assert future == (w + future)[|w|..] == (a + rest)[|w|..];
  }

  /** A slice that is a concatenation is two slices. */
  lemma SplitSlice<T>(s: seq<T>, at: nat, a: seq<T>, b: seq<T>)
    requires at + |a| + |b| <= |s| && s[at..at + |a| + |b|] == a + b
    ensures s[at..at + |a|] == a && s[at + |a|..at + |a| + |b|] == b
  {
    var w := s[at..at + |a| + |b|];
    assert w[..|a|] == a && w[|a|..] == b;
    assert w[..|a|] == s[at..at + |a|] && w[|a|..] == s[at + |a|..at + |a| + |b|];
  }

  /** Two sequences with one end agree on every slice of it. */
  lemma SameEnd<T>(a: seq<T>, b: seq<T>, j: nat, n: nat)
    requires j <= n < |a| == |b| && a[j..] == b[j..]
    ensures a[j..n] == b[..n][j..] && a[n] == b[n]
  {
    assert forall k :: j <= k < |a| ==> a[k] == a[j..][k - j] == b[j..][k - j] == b[k];
  }
}
