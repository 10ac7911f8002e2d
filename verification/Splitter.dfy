/** The delimiter splitters of the parsing library: `ILibIsDelimiter`,
    `ILibParseString` and the quote-aware `ILibParseStringAdv`. */
module Splitter {
  import Sequences

  /** d stands in s at offset i. */
  predicate Occurs(s: string, d: string, i: nat) {
    i <= |s| && d <= s[i..]
  }

  lemma OccursInTail(s: string, d: string, k: nat)
    requires 1 <= k <= |s|
    ensures Occurs(s, d, k) == Occurs(s[1..], d, k - 1)
  {
    assert s[k..] == s[1..][k - 1..];
  }

  /** The first occurrence of d in s, or |s| when there is none. */
  function Find(s: string, d: string): (i: nat)
    requires d != ""
    ensures i <= |s|
    ensures i < |s| ==> Occurs(s, d, i) && i + |d| <= |s|
    ensures forall k :: 0 <= k < i ==> !Occurs(s, d, k)
  {
    if |s| < |d| then |s|
    else if d <= s then 0
    else
      var i := Find(s[1..], d);
      assert forall k | 1 <= k <= |s| :: Occurs(s, d, k) == Occurs(s[1..], d, k - 1) by {
        forall k | 1 <= k <= |s| ensures Occurs(s, d, k) == Occurs(s[1..], d, k - 1) {
          OccursInTail(s, d, k);
        }
      }
      i + 1
  }

  lemma FindIs(s: string, d: string, i: nat)
    requires d != ""
    requires Occurs(s, d, i) && forall k :: 0 <= k < i ==> !Occurs(s, d, k)
    ensures Find(s, d) == i
  {
  }

  function Split(s: string, d: string): (fields: seq<string>)
    requires d != ""
    ensures fields != []
  {
    var i := Find(s, d);
    if i == |s| then [s] else [s[..i]] + Split(s[i + |d|..], d)
  }

  function Join(fields: seq<string>, d: string): string
    requires fields != []
  {
    if |fields| == 1 then fields[0] else fields[0] + d + Join(fields[1..], d)
  }

  function Last<T>(s: seq<T>): T
    requires s != []
  {
    s[|s| - 1]
  }

  // ----- laws of Split

  lemma JoinCons(f: string, fields: seq<string>, d: string)
    requires fields != []
    ensures Join([f] + fields, d) == f + d + Join(fields, d)
  {
    assert ([f] + fields)[1..] == fields;
  }

  lemma {:induction false} JoinOfSplit(s: string, d: string)
    requires d != ""
    ensures Join(Split(s, d), d) == s
  {
    var i := Find(s, d);
    if i < |s| {
      var rest := s[i + |d|..];
      JoinOfSplit(rest, d);
      SplitOnce(s, d, i, s[..i], rest);
      Sequences.CutOut(s, d, i);
      hide Split, Occurs;
      JoinCons(s[..i], Split(rest, d), d);
    }
  }

  ghost predicate Free(f: string, d: string) {
    forall k :: 0 <= k ==> !Occurs(f, d, k)
  }

  lemma NotFoundIsFree(s: string, d: string)
    requires d != ""
    ensures Find(s, d) == |s| <==> Free(s, d)
  {
    assert forall k :: |s| <= k ==> !Occurs(s, d, k);
  }

  lemma BeforeFirstIsFree(s: string, d: string)
    requires d != ""
    ensures Free(s[..Find(s, d)], d)
  {
    var i := Find(s, d);
    forall k | 0 <= k < i ensures !Occurs(s[..i], d, k) {
      assert s[k..][..i - k] == s[..i][k..];
      assert !Occurs(s, d, k);
    }
    assert !Occurs(s[..i], d, i);
  }

  /** No field contains the delimiter. */
  lemma {:induction false} FieldsAreFree(s: string, d: string)
    requires d != ""
    ensures forall f :: f in Split(s, d) ==> Free(f, d)
  {
    var i := Find(s, d);
    BeforeFirstIsFree(s, d);
    hide Occurs, Free;
    if i < |s| {
      FieldsAreFree(s[i + |d|..], d);
      SplitOnce(s, d, i, s[..i], s[i + |d|..]);
    } else {
      SplitOnce(s, d, i, s[..i], s);
    }
    hide Split;
  }

  predicate Border(d: string, k: nat)
    requires k <= |d|
  {
    d[k..] == d[..|d| - k]
  }

  /** No proper suffix of d is a prefix of d, so occurrences of d never overlap. */
  predicate Unbordered(d: string) {
    d != "" && forall k :: 0 < k < |d| ==> !Border(d, k)
  }

  /** A field list without the delimiter inside, joined and split again, comes back. */
  lemma {:induction false} SplitOfJoin(fields: seq<string>, d: string)
    requires Unbordered(d) && fields != []
    requires forall f :: f in fields ==> Free(f, d)
    ensures Split(Join(fields, d), d) == fields
  {
    if |fields| == 1 {
      assert Free(fields[0], d);
      SplitNone(fields[0], d);
    } else {
      var f, tail := fields[0], fields[1..];
      SplitOfJoin(tail, d);
      assert f in fields && Find(f, d) == |f|;
      hide Split, Occurs, Unbordered;
      SplitFree(f, Join(tail, d), d);
      Sequences.Assoc(f, d, Join(tail, d));
      JoinCons(f, tail, d);
      assert [f] + tail == fields;
    }
  }

  lemma FindBeforeDelimiter(a: string, b: string, d: string)
    requires Unbordered(d)
    requires Free(a, d)
    ensures Find(a + (d + b), d) == |a|
  {
    var s := a + (d + b);
    assert s[|a|..] == d + b;
    forall k | 0 <= k < |a| ensures !Occurs(s, d, k) {
      assert s[k..] == a[k..] + (d + b);
      if k + |d| <= |a| {
        assert !Occurs(a, d, k);
      } else {
        var j := |a| - k;
        assert !Border(d, j);
        assert s[k..][j..|d|] == d[..|d| - j];
      }
    }
    FindIs(s, d, |a|);
  }

  /** Splitting is compositional at every delimiter. */
  lemma {:induction false} SplitAt(a: string, b: string, d: string)
    requires Unbordered(d)
    ensures Split(a + (d + b), d) == Split(a, d) + Split(b, d)
    decreases |a|
  {
    if Find(a, d) == |a| {
      SplitFree(a, b, d);
    } else {
      var i, t := SplitUnfold(a, d);
      SplitWithin(a, d + b, d, i, t);
      SplitAt(t, b, d);
      Sequences.Assoc([a[..i]], Split(t, d), Split(b, d));
    }
  }

  lemma SplitUnfold(a: string, d: string) returns (i: nat, t: string)
    requires d != "" && Find(a, d) < |a|
    ensures i == Find(a, d) && t == a[i + |d|..]
    ensures Split(a, d) == [a[..i]] + Split(t, d)
  {
    i := Find(a, d);
    t := a[i + |d|..];
    SplitOnce(a, d, i, a[..i], t);
    hide Split;
  }

  lemma SplitFree(a: string, b: string, d: string)
    requires Unbordered(d) && Find(a, d) == |a|
    ensures Split(a + (d + b), d) == Split(a, d) + Split(b, d)
    ensures Split(a + (d + b), d) == [a] + Split(b, d)
  {
    var s := a + (d + b);
    NotFoundIsFree(a, d);
    FindBeforeDelimiter(a, b, d);
    hide Occurs, Unbordered, Free, Split;
    Sequences.DropAll(a, d + b);
    Sequences.DropAll(d, b);
    Sequences.DropDrop(s, |a|, |d|);
    SplitOnce(s, d, |a|, a, b);
    SplitOnce(a, d, |a|, a, "");
  }

  /** Split, unfolded once at the known first occurrence. */
  lemma SplitOnce(s: string, d: string, i: nat, field: string, rest: string)
    requires d != "" && i == Find(s, d) && field == s[..i]
    requires i < |s| ==> rest == s[i + |d|..]
    ensures i < |s| ==> Split(s, d) == [field] + Split(rest, d)
    ensures i == |s| ==> Split(s, d) == [field]
  {
    hide Occurs, Find;
    assert s[..|s|] == s;
  }

  lemma SplitWithin(a: string, x: string, d: string, i: nat, t: string)
    requires d != "" && i == Find(a, d) < |a| && t == a[i + |d|..]
    ensures Split(a + x, d) == [a[..i]] + Split(t + x, d)
  {
    hide Occurs, Split, Find;
    FindWithin(a, x, d);
    Sequences.DropWithin(a, x, i);
    Sequences.DropWithin(a, x, i + |d|);
    SplitOnce(a + x, d, i, a[..i], t + x);
  }

  lemma FindWithin(a: string, x: string, d: string)
    requires d != "" && Find(a, d) < |a|
    ensures Find(a + x, d) == Find(a, d)
  {
    var i := Find(a, d);
    assert (a + x)[i..] == a[i..] + x;
    forall k | 0 <= k < i ensures !Occurs(a + x, d, k) {
      assert (a + x)[k..] == a[k..] + x;
      assert !Occurs(a, d, k);
    }
    FindIs(a + x, d, i);
  }

  // ----- the loops

  method IsDelimiter(buffer: string, offset: nat, buffersize: nat, delimiter: string) returns (r: bool)
    requires buffersize <= |buffer|
    ensures r == Occurs(buffer[..buffersize], delimiter, offset)
  {
    r := true;
    if offset + |delimiter| > buffersize {
      return false;
    }
    var i := 0;
    while i < |delimiter|
      invariant i <= |delimiter|
      invariant r && buffer[offset..offset + i] == delimiter[..i]
    {
      if buffer[offset + i] != delimiter[i] {
        r := false;
        assert buffer[..buffersize][offset..][i] != delimiter[i];
        break;
      }
      assert buffer[offset..offset + i + 1] == buffer[offset..offset + i] + [buffer[offset + i]];
      i := i + 1;
    }
    if r {
      assert delimiter[..i] == delimiter;
      assert buffer[..buffersize][offset..offset + i] == buffer[offset..offset + i];
    }
  }

  /** A result field: `data` as an index into the buffer, and `datalength`. */
  datatype Field = Field(data: nat, datalength: nat) {
    predicate In(buffer: string) {
      data + datalength <= |buffer|
    }
    function Text(buffer: string): string
      requires In(buffer)
    {
      buffer[data..data + datalength]
    }
  }

  /** The fields spell the texts, and lie between lo and hi. */
  ghost predicate Spells(fields: seq<Field>, texts: seq<string>, buffer: string, lo: nat, hi: nat) {
    && |fields| == |texts| && hi <= |buffer|
    && forall k :: 0 <= k < |fields| ==>
         var f := fields[k];
         lo <= f.data && f.data + f.datalength <= hi && f.Text(buffer) == texts[k]
  }

  lemma SpellsNothing(buffer: string, lo: nat, hi: nat)
    requires hi <= |buffer|
    ensures Spells([], [], buffer, lo, hi)
  {
  }

  lemma SpellsMore(fields: seq<Field>, texts: seq<string>, f: Field, buffer: string, lo: nat, hi: nat)
    requires Spells(fields, texts, buffer, lo, hi)
    requires lo <= f.data && f.data + f.datalength <= hi <= |buffer|
    ensures Spells(fields + [f], texts + [f.Text(buffer)], buffer, lo, hi)
  {
  }

  /** The step of the splitting loop at a delimiter that starts tokenLength into the rest. */
  lemma SplitStep(before: seq<string>, rest: string, d: string, tokenLength: nat)
    requires d != "" && Occurs(rest, d, tokenLength) && forall k :: 0 <= k < tokenLength ==> !Occurs(rest, d, k)
    ensures tokenLength + |d| <= |rest|
    ensures before + Split(rest, d) == before + [rest[..tokenLength]] + Split(rest[tokenLength + |d|..], d)
  {
    FindIs(rest, d, tokenLength);
    hide Occurs;
    var tail := rest[tokenLength + |d|..];
    SplitOnce(rest, d, tokenLength, rest[..tokenLength], tail);
    Sequences.Assoc(before, [rest[..tokenLength]], Split(tail, d));
  }

  lemma OccursAtStart(rest: string, d: string)
    ensures Occurs(rest, d, 0) == (d <= rest)
  {
    assert rest[0..] == rest;
  }

  lemma SplitNone(rest: string, d: string)
    requires d != "" && forall k :: 0 <= k < |rest| ==> !Occurs(rest, d, k)
    ensures Split(rest, d) == [rest]
  {
  }

  /** Occurrences seen through the end index of the buffer and through the rest of the token. */
  lemma OccursInRest(buffer: string, length: nat, token: nat, k: nat, d: string)
    requires token + k <= length <= |buffer|
    ensures Occurs(buffer[..length], d, token + k) == Occurs(buffer[token..length], d, k)
  {
    assert buffer[..length][token + k..] == buffer[token..length][k..];
  }

  /** `length` is the end index of the text to split, and `fields` the result list in order
      (so `NumResults` is its length). The fields are exactly those of Split. */
  method ParseString(buffer: string, offset: nat, length: nat, delimiter: string) returns (fields: seq<Field>)
    requires delimiter != "" && offset <= length <= |buffer|
    ensures Spells(fields, Split(buffer[offset..length], delimiter), buffer, offset, length)
  {
    hide Split, Occurs, Spells;
    fields := [];
    var token, tokenLength := offset, 0;
    var i := offset;
    ghost var texts: seq<string>, rest := [], buffer[offset..length];
    SpellsNothing(buffer, offset, length);
    while i < length
      invariant offset <= token && token + tokenLength == i <= length
      invariant Spells(fields, texts, buffer, offset, length)
      invariant rest == buffer[token..length]
      invariant texts + Split(rest, delimiter) == Split(buffer[offset..length], delimiter)
      invariant forall k :: 0 <= k < tokenLength ==> !Occurs(rest, delimiter, k)
    {
      var here := IsDelimiter(buffer, i, length, delimiter);
      OccursInRest(buffer, length, token, tokenLength, delimiter);
      if here {
        SplitStep(texts, rest, delimiter, tokenLength);
        SpellsMore(fields, texts, Field(token, tokenLength), buffer, offset, length);
        fields := fields + [Field(token, tokenLength)];
        texts := texts + [rest[..tokenLength]];
        assert rest[..tokenLength] == buffer[token..i];
        rest := rest[tokenLength + |delimiter|..];
        i := i + |delimiter| - 1;
        token := token + tokenLength + |delimiter|;
        tokenLength := 0;
      } else {
        tokenLength := tokenLength + 1;
      }
      i := i + 1;
    }
    SpellsMore(fields, texts, Field(token, tokenLength), buffer, offset, length);
    fields := fields + [Field(token, tokenLength)];
    SplitNone(rest, delimiter);
  }

  // ----- the quote-aware splitter

  /** `StringDelimiter` (0 until the first quote is met, and never cleared again) and `Ignore`. */
  datatype Quote = Quote(mark: char, ignore: bool)

  const NO_QUOTE := Quote('\0', false)

  function Examine(q: Quote, c: char): Quote {
    if q.mark == '\0' then
      if c == '"' || c == '\'' then Quote(c, true) else q
    else if c == q.mark then Quote(q.mark, !q.ignore)
    else q
  }

  function SplitAdv(s: string, d: string, q: Quote): (fields: seq<string>)
    requires d != ""
    ensures fields != []
  {
    if s == "" then [""]
    else
      var q' := Examine(q, s[0]);
      if !q'.ignore && d <= s then [""] + SplitAdv(s[|d|..], d, q')
      else
        Prepend([s[0]], SplitAdv(s[1..], d, q'))
  }

  /** The fields with t put before the first one. */
  function Prepend(t: string, fields: seq<string>): (r: seq<string>)
    requires fields != []
    ensures |r| == |fields|
  {
    [t + fields[0]] + fields[1..]
  }

  lemma AdvOnce(s: string, d: string, q: Quote)
    requires d != "" && s != ""
    ensures var q' := Examine(q, s[0]);
      SplitAdv(s, d, q) ==
      if !q'.ignore && d <= s then [""] + SplitAdv(s[|d|..], d, q') else Prepend([s[0]], SplitAdv(s[1..], d, q'))
  {
  }

  lemma AdvDone(t: string, d: string, q: Quote)
    requires d != ""
    ensures Prepend(t, SplitAdv("", d, q)) == [t]
  {
    assert t + "" == t;
  }

  lemma PrependNothing(t: string, fields: seq<string>)
    requires t == "" && fields != []
    ensures Prepend(t, fields) == fields
  {
    assert t + fields[0] == fields[0];
  }

  lemma PrependMore(t: string, c: char, fields: seq<string>)
    requires fields != []
    ensures Prepend(t, Prepend([c], fields)) == Prepend(t + [c], fields)
  {
    assert t + ([c] + fields[0]) == t + [c] + fields[0];
  }

  lemma PrependCut(texts: seq<string>, t: string, fields: seq<string>)
    requires fields != []
    ensures texts + Prepend(t, [""] + fields) == texts + [t] + Prepend("", fields)
  {
    assert t + "" == t && "" + fields[0] == fields[0];
    assert fields == [fields[0]] + fields[1..];
  }

  lemma JoinOfPrepend(t: string, fields: seq<string>, d: string)
    requires fields != []
    ensures Join(Prepend(t, fields), d) == t + Join(fields, d)
  {
    assert Prepend(t, fields)[1..] == fields[1..];
    assert |fields| > 1 ==> t + fields[0] + d + Join(fields[1..], d) == t + (fields[0] + d + Join(fields[1..], d));
  }

  lemma {:induction false} JoinOfSplitAdv(s: string, d: string, q: Quote)
    requires d != ""
    ensures Join(SplitAdv(s, d, q), d) == s
  {
    if s != "" {
      var q' := Examine(q, s[0]);
      if !q'.ignore && d <= s {
        JoinOfSplitAdv(s[|d|..], d, q');
        AdvOnce(s, d, q);
        hide SplitAdv;
        assert s == d + s[|d|..];
        assert SplitAdv(s, d, q)[1..] == SplitAdv(s[|d|..], d, q');
      } else {
        JoinOfSplitAdv(s[1..], d, q');
        AdvOnce(s, d, q);
        hide SplitAdv;
        JoinOfPrepend([s[0]], SplitAdv(s[1..], d, q'), d);
      }
    }
  }

  /** Inside a quoted stretch nothing is split: up to the closing mark the text stays in one field. */
  lemma {:induction false} QuotedStretchIsWhole(x: string, rest: string, d: string, q: Quote)
    requires d != "" && q.ignore && q.mark != '\0' && q.mark !in x
    ensures SplitAdv(x + rest, d, q) == Prepend(x, SplitAdv(rest, d, q))
  {
    var tail := SplitAdv(rest, d, q);
    if x == "" {
      assert x + rest == rest && x + tail[0] == tail[0];
    } else {
      assert (x + rest)[1..] == x[1..] + rest && (x + rest)[0] == x[0];
      QuotedStretchIsWhole(x[1..], rest, d, q);
      assert Examine(q, x[0]) == q;
      assert [x[0]] + (x[1..] + tail[0]) == x + tail[0];
    }
  }

  /** A quoted text, from its mark to the next one of the same kind, stays in one field whatever it contains; the
      mark is remembered, so the other kind of mark quotes nothing from there on. */
  lemma QuotedTextIsWhole(mark: char, x: string, rest: string, d: string)
    requires mark == '"' || mark == '\''
    requires mark !in x && d != "" && d[0] != mark
    ensures SplitAdv([mark] + x + [mark] + rest, d, NO_QUOTE)
      == Prepend([mark] + x + [mark], SplitAdv(rest, d, Quote(mark, false)))
  {
    hide SplitAdv, Prepend;
    var later, tail := [mark] + rest, SplitAdv(rest, d, Quote(mark, false));
    QuoteCloses(mark, rest, d);
    QuotedStretchIsWhole(x, later, d, Quote(mark, true));
    QuoteOpens(mark, x + later, d);
    ThreePrepends([mark], x, [mark], tail);
    assert [mark] + x + [mark] + rest == [mark] + (x + later);
  }

  lemma QuoteOpens(mark: char, s: string, d: string)
    requires (mark == '"' || mark == '\'') && d != ""
    ensures SplitAdv([mark] + s, d, NO_QUOTE) == Prepend([mark], SplitAdv(s, d, Quote(mark, true)))
  {
    AdvOnce([mark] + s, d, NO_QUOTE);
    assert ([mark] + s)[1..] == s;
  }

  lemma QuoteCloses(mark: char, rest: string, d: string)
    requires (mark == '"' || mark == '\'') && d != "" && d[0] != mark
    ensures SplitAdv([mark] + rest, d, Quote(mark, true)) == Prepend([mark], SplitAdv(rest, d, Quote(mark, false)))
  {
    AdvOnce([mark] + rest, d, Quote(mark, true));
    assert ([mark] + rest)[1..] == rest && ([mark] + rest)[0] == mark;
  }

  lemma ThreePrepends(a: string, b: string, c: string, fields: seq<string>)
    requires fields != []
    ensures Prepend(a, Prepend(b, Prepend(c, fields))) == Prepend(a + b + c, fields)
  {
    assert a + (b + (c + fields[0])) == a + b + c + fields[0];
  }

  /** Behind a closed quote any other character is plain. */
  lemma PlainBehindQuote(mark: char, c: char, rest: string, d: string)
    requires mark != '\0' && c != mark && d != ""
    ensures SplitAdv([c] + rest, d, Quote(mark, false)) ==
      if d <= [c] + rest then [""] + SplitAdv(([c] + rest)[|d|..], d, Quote(mark, false))
      else Prepend([c], SplitAdv(rest, d, Quote(mark, false)))
  {
    AdvOnce([c] + rest, d, Quote(mark, false));
    assert ([c] + rest)[1..] == rest;
  }

  /** On text with no quote the two splitters agree. */
  lemma {:induction false} SplitAdvOfPlain(s: string, d: string)
    requires d != "" && '"' !in s && '\'' !in s
    ensures SplitAdv(s, d, NO_QUOTE) == Split(s, d)
  {
    if s != "" {
      if d <= s {
        FindIs(s, d, 0);
        SplitAdvOfPlain(s[|d|..], d);
      } else {
        SplitAdvOfPlain(s[1..], d);
        SplitTail(s, d);
      }
    } else {
      assert Find(s, d) == 0;
    }
  }

  lemma SplitTail(s: string, d: string)
    requires d != "" && s != "" && !(d <= s)
    ensures Split(s, d) == [[s[0]] + Split(s[1..], d)[0]] + Split(s[1..], d)[1..]
  {
    var i := Find(s, d);
    assert i == Find(s[1..], d) + 1;
    if i < |s| {
      assert s[1..][..i - 1] == s[1..i];
      assert s[1..][i - 1 + |d|..] == s[i + |d|..];
      assert [s[0]] + s[1..i] == s[..i];
    } else {
      assert [s[0]] + s[1..] == s;
    }
  }

  method ParseStringAdv(buffer: string, offset: nat, length: nat, delimiter: string) returns (fields: seq<Field>)
    requires delimiter != "" && offset <= length <= |buffer|
    ensures Spells(fields, SplitAdv(buffer[offset..length], delimiter, NO_QUOTE), buffer, offset, length)
  {
    hide Occurs, SplitAdv, Prepend, Spells;
    fields := [];
    var token, tokenLength := offset, 0;
    var i := offset;
    var q := NO_QUOTE;
    ghost var texts: seq<string>, rest := [], buffer[offset..length];
    SpellsNothing(buffer, offset, length);
    ghost var whole := SplitAdv(rest, delimiter, q);
    PrependNothing(buffer[token..i], whole);
    while i < length
      invariant offset <= token && token + tokenLength == i <= length
      invariant Spells(fields, texts, buffer, offset, length)
      invariant rest == buffer[i..length]
      invariant texts + Prepend(buffer[token..i], SplitAdv(rest, delimiter, q)) == whole
    {
      AdvOnce(rest, delimiter, q);
      q := Examine(q, buffer[i]);
      var here := IsDelimiter(buffer, i, length, delimiter);
      OccursInRest(buffer, length, i, 0, delimiter);
      OccursAtStart(rest, delimiter);
      if !q.ignore && here {
        SpellsMore(fields, texts, Field(token, tokenLength), buffer, offset, length);
        fields := fields + [Field(token, tokenLength)];
        PrependCut(texts, buffer[token..i], SplitAdv(rest[|delimiter|..], delimiter, q));
        texts := texts + [buffer[token..i]];
        rest := rest[|delimiter|..];
        i := i + |delimiter| - 1;
        token := token + tokenLength + |delimiter|;
        tokenLength := 0;
        assert buffer[token..i + 1] == "";
      } else {
        PrependMore(buffer[token..i], rest[0], SplitAdv(rest[1..], delimiter, q));
        assert buffer[token..i] + [rest[0]] == buffer[token..i + 1];
        rest := rest[1..];
        tokenLength := tokenLength + 1;
      }
      i := i + 1;
    }
    SpellsMore(fields, texts, Field(token, tokenLength), buffer, offset, length);
    fields := fields + [Field(token, tokenLength)];
    AdvDone(buffer[token..i], delimiter, q);
  }
}
