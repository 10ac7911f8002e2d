/** Base64 as section 4 of RFC 4648 describes it, with the library's tolerance for noise and its reach of
    one byte past a short tail. */
module Base64 {
  import Sequences

  type byte = b: int | 0 <= b < 256
  type sextet = s: int | 0 <= s < 64

  function CharsFrom(first: char, n: nat): (s: string)
    requires first as int + n <= 256
    ensures |s| == n && forall k :: 0 <= k < n ==> s[k] == (first as int + k) as char
  {
    seq(n, k requires 0 <= k < n => (first as int + k) as char)
  }

  /** The alphabet: A to Z, a to z, 0 to 9, plus and slash. */
  function CB64(): (t: string)
    ensures |t| == 64
  {
    CharsFrom('A', 26) + CharsFrom('a', 26) + CharsFrom('0', 10) + "+/"
  }

  /** The decoding table for the characters from plus to z: the value counts from '>', a dollar is noise. */
  function CD64(): (t: string)
    ensures |t| == 80
  {
    "|$$$}" + CharsFrom('r', 10) + "$$$$$$$" + CharsFrom('>', 26) + "$$$$$$" + CharsFrom('X', 26)
  }

  /** One more than the value of an alphabet character; 0 for any other character. */
  function Code(c: char): int {
    if c < '+' || c > 'z' then 0
    else
      var v := CD64()[c as int - 43];
      if v == '$' then 0 else v as int - 61
  }

  lemma CodeInRange(c: char)
    ensures 0 <= Code(c) <= 64
  {
    if '+' <= c <= 'z' {
      var i := c as int - 43;
      assert i < 5 ==> CD64()[i] == "|$$$}"[i];
    }
  }

  lemma TablesInvert(s: sextet)
    ensures Code(CB64()[s]) == s + 1
  {
    if s < 26 {
      assert CB64()[s] == (65 + s) as char;
      assert CD64()[65 + s - 43] == (62 + s) as char;
    } else if s < 52 {
      assert CB64()[s] == (97 + s - 26) as char;
      assert CD64()[97 + s - 26 - 43] == (88 + s - 26) as char;
    } else if s < 62 {
      assert CB64()[s] == (48 + s - 52) as char;
    }
  }

  // ----- what encoding and decoding compute

  /** The four characters of a block of length 1, 2 or 3. */
  function EncodeBlock(a: byte, b: byte, c: byte, len: nat): (t: string)
    ensures |t| == 4
  {
    [ CB64()[a / 4],
      CB64()[a % 4 * 16 + b / 16],
      if len > 1 then CB64()[b % 16 * 4 + c / 64] else '=',
      if len > 2 then CB64()[c % 64] else '=' ]
  }

  /** The text of the data; `beyond` is the byte in memory behind them, which a short tail reaches for. */
  function Encoded(data: seq<byte>, beyond: byte): string {
    if data == [] then ""
    else if |data| == 1 then EncodeBlock(data[0], beyond, beyond, 1)
    else if |data| == 2 then EncodeBlock(data[0], data[1], beyond, 2)
    else EncodeBlock(data[0], data[1], data[2], 3) + Encoded(data[3..], beyond)
  }

  function OneSextet(c: char): (values: seq<sextet>)
    ensures |values| <= 1
  {
    CodeInRange(c);
    if Code(c) == 0 then [] else [Code(c) - 1]
  }

  /** The values of the alphabet characters of a text; everything else is noise. */
  function Sextets(text: string): (values: seq<sextet>)
    ensures |values| <= |text|
  {
    if text == "" then [] else OneSextet(text[0]) + Sextets(text[1..])
  }

  /** Four values make three bytes; a last group of n values makes n - 1. */
  function Decoded(values: seq<sextet>): seq<byte> {
    if |values| < 4 then DecodedTail(values)
    else [First(values[0], values[1]), Second(values[1], values[2]), Third(values[2], values[3])] + Decoded(values[4..])
  }

  function DecodedTail(values: seq<sextet>): seq<byte>
    requires |values| < 4
  {
    if |values| < 2 then []
    else [First(values[0], values[1])] + if |values| < 3 then [] else [Second(values[1], values[2])]
  }

  function First(a: sextet, b: sextet): byte {
    a * 4 + b / 16
  }

  function Second(b: sextet, c: sextet): byte {
    b % 16 * 16 + c / 4
  }

  function Third(c: sextet, d: sextet): byte {
    c % 4 * 64 + d
  }

  lemma {:induction false} SextetsJoin(a: string, b: string)
    ensures Sextets(a + b) == Sextets(a) + Sextets(b)
  {
    hide OneSextet;
    if a == "" {
      assert a + b == b;
    } else {
      assert (a + b)[0] == a[0] && (a + b)[1..] == a[1..] + b;
      SextetsJoin(a[1..], b);
      Sequences.Assoc(OneSextet(a[0]), Sextets(a[1..]), Sextets(b));
    }
  }

  lemma SextetsOfOne(c: char)
    ensures Sextets([c]) == OneSextet(c)
  {
    assert [c][1..] == "";
  }

  /** Characters outside the alphabet may stand anywhere in a text. */
  lemma {:induction false} NoiseIsIgnored(a: string, c: char, b: string)
    requires Code(c) == 0
    ensures Decoded(Sextets(a + [c] + b)) == Decoded(Sextets(a + b))
  {
    SextetsJoin(a + [c], b);
    SextetsJoin(a, [c]);
    SextetsJoin(a, b);
    SextetsOfOne(c);
    assert Sextets(a) + [] == Sextets(a);
  }

  lemma {:induction false} EncodedLength(data: seq<byte>, beyond: byte)
    ensures |Encoded(data, beyond)| == (|data| + 2) / 3 * 4
  {
    if |data| >= 3 {
      EncodedLength(data[3..], beyond);
      assert (|data| + 2) / 3 == (|data| - 3 + 2) / 3 + 1;
    }
  }

  lemma {:induction false} DecodedLength(values: seq<sextet>)
    ensures |Decoded(values)| == |values| / 4 * 3 + (if |values| % 4 == 0 then 0 else |values| % 4 - 1)
  {
    if |values| >= 4 {
      DecodedLength(values[4..]);
    }
  }

  lemma SextetOf(s: sextet)
    ensures Sextets([CB64()[s]]) == [s]
  {
    TablesInvert(s);
    SextetsOfOne(CB64()[s]);
  }

  lemma PaddingIsNoise()
    ensures Sextets(['=']) == []
  {
    assert CD64()['=' as int - 43] == '$';
    SextetsOfOne('=');
  }

  lemma SextetsOfFour(w: sextet, x: sextet, y: char, z: char)
    ensures Sextets([CB64()[w], CB64()[x], y, z]) == [w, x] + (OneSextet(y) + OneSextet(z))
  {
    var a, b := CB64()[w], CB64()[x];
    SextetOf(w);
    SextetOf(x);
    SextetsOfOne(y);
    SextetsOfOne(z);
    hide Sextets, CB64, OneSextet;
    SextetsJoin([a, b], [y, z]);
    SextetsJoin([a], [b]);
    SextetsJoin([y], [z]);
    assert [a, b] + [y, z] == [a, b, y, z] && [a] + [b] == [a, b] && [y] + [z] == [y, z];
  }

  lemma {:induction false} BlockSextets(a: byte, b: byte, c: byte, len: nat)
    requires 1 <= len <= 3
    ensures Sextets(EncodeBlock(a, b, c, len)) ==
      [a / 4, a % 4 * 16 + b / 16]
      + ((if len > 1 then [b % 16 * 4 + c / 64] else []) + if len > 2 then [c % 64] else [])
  {
    var t := EncodeBlock(a, b, c, len);
    SextetsOfFour(a / 4, a % 4 * 16 + b / 16, t[2], t[3]);
    SextetOf(b % 16 * 4 + c / 64);
    SextetOf(c % 64);
    PaddingIsNoise();
    SextetsOfOne(t[2]);
    SextetsOfOne(t[3]);
    hide Sextets, CB64, OneSextet;
  }

  /** The bits of three bytes, cut into four values and put together again. */
  lemma BitsAgain(a: byte, b: byte, c: byte)
    ensures First(a / 4, a % 4 * 16 + b / 16) == a
    ensures Second(a % 4 * 16 + b / 16, b % 16 * 4 + c / 64) == b
    ensures Third(b % 16 * 4 + c / 64, c % 64) == c
  {
  }

  lemma SextetsOfNothing()
    ensures Sextets("") == []
  {
  }

  /** Decoding gives back what was encoded, whatever lies behind the data in memory. */
  lemma {:induction false} RoundTrip(data: seq<byte>, beyond: byte)
    ensures Decoded(Sextets(Encoded(data, beyond))) == data
  {
    hide EncodeBlock, Sextets, First, Second, Third;
    if data == [] {
      SextetsOfNothing();
    } else if |data| == 1 {
      BlockSextets(data[0], beyond, beyond, 1);
      BitsAgain(data[0], beyond, beyond);
    } else if |data| == 2 {
      BlockSextets(data[0], data[1], beyond, 2);
      BitsAgain(data[0], data[1], beyond);
    } else {
      var block, rest := EncodeBlock(data[0], data[1], data[2], 3), Encoded(data[3..], beyond);
      BlockSextets(data[0], data[1], data[2], 3);
      BitsAgain(data[0], data[1], data[2]);
      SextetsJoin(block, rest);
      RoundTrip(data[3..], beyond);
      DecodedMore(Sextets(block), Sextets(rest));
      hide Decoded, Encoded;
      assert data == [data[0], data[1], data[2]] + data[3..];
    }
  }

  lemma DecodedMore(values: seq<sextet>, rest: seq<sextet>)
    requires |values| == 4
    ensures Decoded(values + rest) ==
      [First(values[0], values[1]), Second(values[1], values[2]), Third(values[2], values[3])] + Decoded(rest)
  {
    assert (values + rest)[4..] == rest;
  }

  /** The pad bits of RFC 4648, section 3.5, are zero only when the byte behind the data is small. */
  lemma {:induction false} CanonicalIff(data: seq<byte>, beyond: byte)
    ensures Encoded(data, beyond) == Encoded(data, 0) <==>
      (|data| % 3 == 1 ==> beyond < 16) && (|data| % 3 == 2 ==> beyond < 64)
  {
    hide EncodeBlock;
    if |data| == 1 {
      OneDiffers(data[0], beyond);
    } else if |data| == 2 {
      TwoDiffer(data[0], data[1], beyond);
    } else if |data| > 2 {
      CanonicalIff(data[3..], beyond);
      var block := EncodeBlock(data[0], data[1], data[2], 3);
      assert (block + Encoded(data[3..], beyond))[4..] == Encoded(data[3..], beyond);
      assert (block + Encoded(data[3..], 0))[4..] == Encoded(data[3..], 0);
    }
  }

  lemma OneDiffers(a: byte, beyond: byte)
    ensures EncodeBlock(a, beyond, beyond, 1) == EncodeBlock(a, 0, 0, 1) <==> beyond < 16
  {
    TablesInvert(a % 4 * 16 + beyond / 16);
    TablesInvert(a % 4 * 16 + 0 / 16);
    hide CB64, Code;
  }

  lemma TwoDiffer(a: byte, b: byte, beyond: byte)
    ensures EncodeBlock(a, b, beyond, 2) == EncodeBlock(a, b, 0, 2) <==> beyond < 64
  {
    TablesInvert(b % 16 * 4 + beyond / 64);
    TablesInvert(b % 16 * 4 + 0 / 64);
    hide CB64, Code;
  }

  // ----- the text of RFC 4648, section 4

  const UPPER := "ABCDEFGHIJKLMNOPQRSTUVWXYZ"
  const LOWER := "abcdefghijklmnopqrstuvwxyz"
  const DIGITS := "0123456789"
  const ALPHABET := UPPER + LOWER + DIGITS + "+/"

  lemma UpperIs(k: nat)
    requires k < 26
    ensures UPPER[k] == (65 + k) as char
  {
  }

  lemma LowerIs(k: nat)
    requires k < 26
    ensures LOWER[k] == (97 + k) as char
  {
  }

  /** The table is the alphabet of the standard. */
  lemma AlphabetIs(s: sextet)
    ensures |ALPHABET| == 64 && CB64()[s] == ALPHABET[s]
  {
    if s < 26 {
      UpperIs(s);
    } else if s < 52 {
      LowerIs(s - 26);
    } else if s < 62 {
      assert ALPHABET[s] == DIGITS[s - 52] == (48 + s - 52) as char;
    }
    hide UPPER, LOWER;
  }

  /** The decoder takes a character for the value at which it stands in the alphabet, and passes over the
      characters that are not in it. */
  lemma CodeMeans(c: char)
    ensures c in ALPHABET ==> exists s: sextet :: ALPHABET[s] == c && OneSextet(c) == [s]
    ensures c !in ALPHABET ==> OneSextet(c) == []
  {
    hide UPPER, LOWER, DIGITS;
    CodeInRange(c);
    if c in ALPHABET {
      AlphabetIs(0);
      var s :| 0 <= s < |ALPHABET| && ALPHABET[s] == c;
      AlphabetIs(s);
      TablesInvert(s);
    } else if Code(c) != 0 {
      var s := Code(c) - 1;
      CodeIsOf(c);
      AlphabetIs(s);
    }
  }

  lemma CodeIsOf(c: char)
    requires Code(c) > 0
    ensures Code(c) - 1 < 64 && CB64()[Code(c) - 1] == c
  {
    CodeInRange(c);
    var i := c as int - 43;
    assert i < 5 ==> CD64()[i] == "|$$$}"[i];
    assert 5 <= i < 15 ==> CD64()[i] == (114 + i - 5) as char;
    assert 22 <= i < 48 ==> CD64()[i] == (62 + i - 22) as char;
    assert 54 <= i ==> CD64()[i] == (88 + i - 54) as char;
    assert 15 <= i < 22 || 48 <= i < 54 ==> CD64()[i] == '$';
  }

  function ByteAt(data: seq<byte>, beyond: byte, k: nat): byte {
    if k < |data| then data[k] else beyond
  }

  /** 24 bits as a number. */
  function Number(a: nat, b: nat, c: nat): nat {
    0x1_0000 * a + 0x100 * b + c
  }

  function Group(data: seq<byte>, beyond: byte, g: nat): nat {
    Number(ByteAt(data, beyond, 3 * g), ByteAt(data, beyond, 3 * g + 1), ByteAt(data, beyond, 3 * g + 2))
  }

  /** The k-th six bits of the number, from the front, as a letter of the alphabet; or a pad where a group of this
      length has no bits for it. */
  function Letter(n: nat, length: int, k: nat): char
    requires |ALPHABET| == 64 && k < 4
  {
    if k == 0 then ALPHABET[n / 0x4_0000 % 64]
    else if k == 1 then ALPHABET[n / 0x1000 % 64]
    else if k == 2 then (if length > 1 then ALPHABET[n / 0x40 % 64] else '=')
    else if length > 2 then ALPHABET[n % 64] else '='
  }

  lemma SixBits(a: byte, b: byte, c: byte)
    ensures var n := Number(a, b, c);
      && n / 0x4_0000 % 64 == a / 4 && n / 0x1000 % 64 == a % 4 * 16 + b / 16
      && n / 0x40 % 64 == b % 16 * 4 + c / 64 && n % 64 == c % 64
  {
    var n := Number(a, b, c);
    var a1, a0, b1, b0, c1, c0 := a / 4, a % 4, b / 16, b % 16, c / 64, c % 64;
    assert n == 0x4_0000 * a1 + 0x1000 * (16 * a0 + b1) + 0x40 * (4 * b0 + c1) + c0;
    SixBitsOf(a1, 16 * a0 + b1, 4 * b0 + c1, c0);
  }

  lemma SixBitsOf(p: sextet, q: sextet, r: sextet, s: sextet)
    ensures var n := 0x4_0000 * p + 0x1000 * q + 0x40 * r + s;
      n / 0x4_0000 % 64 == p && n / 0x1000 % 64 == q && n / 0x40 % 64 == r && n % 64 == s
  {
    var n := 0x4_0000 * p + 0x1000 * q + 0x40 * r + s;
    assert n / 0x40 == 0x1000 * p + 0x40 * q + r;
    assert n / 0x1000 == 0x40 * p + q;
    assert n / 0x4_0000 == p;
  }

  /** The encoder writes these letters, group by group, when the byte behind the data is the filling. */
  lemma {:induction false} EncodedAt(data: seq<byte>, beyond: byte, g: nat, k: nat)
    requires k < 4 && 4 * g + k < |Encoded(data, beyond)|
    ensures |ALPHABET| == 64
    ensures Encoded(data, beyond)[4 * g + k] == Letter(Group(data, beyond, g), |data| - 3 * g, k)
    decreases g
  {
    AlphabetIs(0);
    hide ALPHABET, CB64, Encoded, Letter, Number, EncodeBlock;
    if g == 0 {
      FirstFour(data, beyond);
      var a, b, c := ByteAt(data, beyond, 0), ByteAt(data, beyond, 1), ByteAt(data, beyond, 2);
      BlockAt(a, b, c, if |data| < 3 then |data| else 3, k);
      LongGroup(Number(a, b, c), |data|, k);
      assert Encoded(data, beyond)[k] == Encoded(data, beyond)[..4][k];
    } else {
      EncodedRest(data, beyond);
      assert Encoded(data, beyond)[4..][4 * (g - 1) + k] == Encoded(data, beyond)[4 * g + k];
      EncodedAt(data[3..], beyond, g - 1, k);
      LaterGroup(data, beyond, g);
    }
  }

  lemma LongGroup(n: nat, length: nat, k: nat)
    requires |ALPHABET| == 64 && k < 4
    ensures Letter(n, length, k) == Letter(n, if length < 3 then length else 3, k)
  {
    hide ALPHABET;
  }

  lemma LaterGroup(data: seq<byte>, beyond: byte, g: nat)
    requires |data| > 2 && g > 0
    ensures Group(data, beyond, g) == Group(data[3..], beyond, g - 1)
  {
    hide Number;
  }

  lemma EncodedRest(data: seq<byte>, beyond: byte)
    requires |Encoded(data, beyond)| > 4
    ensures |data| > 2 && Encoded(data, beyond)[4..] == Encoded(data[3..], beyond)
  {
    hide EncodeBlock;
  }

  lemma FirstFour(data: seq<byte>, beyond: byte)
    requires Encoded(data, beyond) != ""
    ensures data != [] && |Encoded(data, beyond)| >= 4
    ensures Encoded(data, beyond)[..4] == EncodeBlock(ByteAt(data, beyond, 0), ByteAt(data, beyond, 1),
      ByteAt(data, beyond, 2), if |data| < 3 then |data| else 3)
  {
    hide EncodeBlock;
  }

  lemma BlockAt(a: byte, b: byte, c: byte, length: nat, k: nat)
    requires 0 < length < 4 && k < 4
    ensures |ALPHABET| == 64 && EncodeBlock(a, b, c, length)[k] == Letter(Number(a, b, c), length, k)
  {
    SixBits(a, b, c);
    AlphabetIs(a / 4);
    AlphabetIs(a % 4 * 16 + b / 16);
    AlphabetIs(b % 16 * 4 + c / 64);
    AlphabetIs(c % 64);
    hide ALPHABET, CB64, Number;
  }

  // ----- the encoder

  method EncodeOnto(out: array<char>, at: nat, a: byte, b: byte, c: byte, len: nat)
    requires at + 4 <= out.Length
    modifies out
    ensures out[..at + 4] == old(out[..at]) + EncodeBlock(a, b, c, len)
  {
    out[at] := CB64()[a / 4];
    out[at + 1] := CB64()[a % 4 * 16 + b / 16];
    out[at + 2] := if len > 1 then CB64()[b % 16 * 4 + c / 64] else '=';
    out[at + 3] := if len > 2 then CB64()[c % 64] else '=';
    hide CB64;
  }

  /** The byte in memory behind the data. */
  function Beyond(input: seq<byte>, inputlen: nat): byte {
    if inputlen < |input| then input[inputlen] else 0
  }

  /** ILibBase64Encode: a tail of 1 or 2 bytes is encoded together with the byte behind the data. */
  method Encode(input: seq<byte>, inputlen: nat) returns (output: array?<char>, len: nat)
    requires inputlen <= |input| && (inputlen % 3 != 0 ==> inputlen < |input|)
    ensures inputlen == 0 ==> output == null && len == 0
    ensures inputlen > 0 ==>
      && output != null && fresh(output) && output.Length == inputlen * 4 / 3 + 5
      && len < output.Length && output[len] == '\0'
      && output[..len] == Encoded(input[..inputlen], Beyond(input, inputlen))
  {
    if inputlen == 0 {
      return null, 0;
    }
    var buffer := new char[inputlen * 4 / 3 + 5];
    ghost var data, beyond := input[..inputlen], Beyond(input, inputlen);
    hide EncodeBlock, Encoded;
    var k, out;
    ghost var blocks;
    k, out, blocks := EncodeBlocks(buffer, input, inputlen, beyond);
    TailOf(inputlen, blocks);
    out := EncodeTail(buffer, out, input, inputlen, k, beyond);
    Terminate(buffer, out);
    output, len := buffer, out;
  }

  method EncodeTail(buffer: array<char>, at: nat, input: seq<byte>, inputlen: nat, k: nat, ghost beyond: byte)
    returns (out: nat)
    requires k <= inputlen < k + 3 && inputlen <= |input|
    requires at + (if k < inputlen then 4 else 0) < buffer.Length
    requires k < inputlen ==> inputlen < |input| && input[inputlen] == beyond
    modifies buffer
    ensures out == at + (if k < inputlen then 4 else 0)
    ensures buffer[..out] == old(buffer[..at]) + Encoded(input[..inputlen][k..], beyond)
  {
    EncodedEnd(input[..inputlen], k, beyond);
    hide EncodeBlock, Encoded;
    out := at;
    if inputlen - k == 1 {
      EncodeOnto(buffer, at, input[k], input[k + 1], input[k + 1], 1);
      out := at + 4;
    } else if inputlen - k == 2 {
      EncodeOnto(buffer, at, input[k], input[k + 1], input[k + 2], 2);
      out := at + 4;
    }
  }

  /** The whole blocks of three bytes. */
  method EncodeBlocks(buffer: array<char>, input: seq<byte>, inputlen: nat, ghost beyond: byte)
    returns (k: nat, out: nat, ghost blocks: nat)
    requires inputlen <= |input| && inputlen * 4 <= buffer.Length * 3
    modifies buffer
    ensures k == 3 * blocks && out == 4 * blocks && k <= inputlen < k + 3
    ensures out <= buffer.Length
    ensures buffer[..out] + Encoded(input[..inputlen][k..], beyond) == Encoded(input[..inputlen], beyond)
  {
    ghost var data := input[..inputlen];
    k, out, blocks := 0, 0, 0;
    hide EncodeBlock, Encoded;
    assert data[0..] == data;
    while k + 3 <= inputlen
      invariant k == 3 * blocks && out == 4 * blocks && k <= inputlen
      invariant out <= buffer.Length && buffer[..out] + Encoded(data[k..], beyond) == Encoded(data, beyond)
    {
      BlockAdded(buffer[..out], data, k, beyond);
      EncodeOnto(buffer, out, input[k], input[k + 1], input[k + 2], 3);
      k, out, blocks := k + 3, out + 4, blocks + 1;
    }
  }

  lemma TailOf(inputlen: nat, blocks: nat)
    requires 3 * blocks <= inputlen < 3 * blocks + 3
    ensures inputlen % 3 == inputlen - 3 * blocks && 4 * blocks < inputlen * 4 / 3 + 5
    ensures inputlen % 3 != 0 ==> 4 * blocks + 4 < inputlen * 4 / 3 + 5
  {
  }

  lemma BlockAdded(text: string, data: seq<byte>, k: nat, beyond: byte)
    requires k + 3 <= |data|
    ensures text + EncodeBlock(data[k], data[k + 1], data[k + 2], 3) + Encoded(data[k + 3..], beyond)
      == text + Encoded(data[k..], beyond)
  {
    hide EncodeBlock;
    assert data[k..][3..] == data[k + 3..];
    Sequences.Assoc(text, EncodeBlock(data[k], data[k + 1], data[k + 2], 3), Encoded(data[k + 3..], beyond));
  }

  method Terminate(buffer: array<char>, len: nat)
    requires len < buffer.Length
    modifies buffer
    ensures buffer[len] == '\0' && buffer[..len] == old(buffer[..len])
  {
    buffer[len] := '\0';
  }

  lemma EncodedEnd(data: seq<byte>, k: nat, beyond: byte)
    requires k <= |data| < k + 3
    ensures Encoded(data[k..], beyond) ==
      if |data| == k then "" else if |data| == k + 1 then EncodeBlock(data[k], beyond, beyond, 1)
      else EncodeBlock(data[k], data[k + 1], beyond, 2)
  {
  }

  // ----- the decoder

  /** The values in the text from position i on, which may be one past the byte behind the text. */
  ghost function Rest(input: string, inputlen: nat, i: nat): seq<sextet>
    requires i <= inputlen + 1 && inputlen < |input|
  {
    if i <= inputlen then Sextets(input[i..inputlen]) else []
  }

  /** The first alphabet character of the text from position i on, or the end of the text. */
  function Skip(input: string, inputlen: nat, i: nat): (p: nat)
    requires i <= inputlen < |input|
    ensures i <= p <= inputlen && (p < inputlen ==> Code(input[p]) != 0)
    decreases inputlen - i
  {
    if i == inputlen || Code(input[i]) != 0 then i else Skip(input, inputlen, i + 1)
  }

  /** The scan for the next alphabet character. One in the byte behind the text does not count, because
      the position is past the text then. */
  method NextCode(input: string, inputlen: nat, start: nat) returns (v: int, inptr: nat)
    requires start <= inputlen < |input|
    ensures start < inptr == Skip(input, inputlen, start) + 1 <= inputlen + 1
    ensures inptr <= inputlen ==> v == Code(input[inptr - 1]) && v != 0
  {
    hide Code;
    v, inptr := 0, start;
    while inptr <= inputlen && v == 0
      invariant start <= inptr <= inputlen + 1 && (inptr == start ==> v == 0)
      invariant v == 0 && inptr <= inputlen ==> Skip(input, inputlen, start) == Skip(input, inputlen, inptr)
      invariant v != 0 || inptr > inputlen ==> inptr == Skip(input, inputlen, start) + 1
      invariant inptr > start ==> v == Code(input[inptr - 1])
      decreases inputlen + 1 - inptr
    {
      v := Code(input[inptr]);
      inptr := inptr + 1;
    }
  }

  lemma {:induction false} RestSkips(input: string, inputlen: nat, i: nat, p: nat)
    requires i <= inputlen < |input| && p == Skip(input, inputlen, i)
    ensures p == inputlen ==> Rest(input, inputlen, i) == [] && Rest(input, inputlen, p + 1) == []
    ensures p < inputlen ==> Rest(input, inputlen, i) == OneSextet(input[p]) + Rest(input, inputlen, p + 1)
    decreases inputlen - i
  {
    hide Rest, Code, OneSextet;
    RestStep(input, inputlen, i);
    if i < inputlen && Code(input[i]) == 0 {
      RestSkips(input, inputlen, i + 1, p);
    }
  }

  lemma RestStep(input: string, inputlen: nat, i: nat)
    requires i <= inputlen < |input|
    ensures i == inputlen ==> Rest(input, inputlen, i) == [] && Rest(input, inputlen, i + 1) == []
    ensures i < inputlen ==> Rest(input, inputlen, i) == OneSextet(input[i]) + Rest(input, inputlen, i + 1)
    ensures i < inputlen && Code(input[i]) == 0 ==> Rest(input, inputlen, i) == Rest(input, inputlen, i + 1)
  {
    if i < inputlen {
      assert input[i..inputlen][1..] == input[i + 1..inputlen];
    }
  }

  /** Up to four values; the position past the text ends the group. */
  method FetchGroup(input: string, inputlen: nat, start: nat, quad: array<sextet>)
    returns (n: nat, inptr: nat, ghost got: seq<sextet>)
    requires start <= inputlen < |input| && quad.Length == 4
    modifies quad
    ensures n == |got| <= 4 && quad[..n] == got
    ensures start + n <= inptr <= inputlen + 1 && start < inptr
    ensures Rest(input, inputlen, start) == got + Rest(input, inputlen, inptr)
    ensures n < 4 ==> inptr == inputlen + 1
  {
    hide Code, Rest;
    n, inptr, got := 0, start, [];
    var i := 0;
    while i < 4 && inptr <= inputlen
      invariant i <= 4 && start + n <= inptr <= inputlen + 1 && (i == 0 ==> start == inptr) && (i > 0 ==> start < inptr)
      invariant n == |got| <= i && quad[..n] == got
      invariant (inptr <= inputlen ==> n == i) && (i == 4 && n < 4 ==> inptr == inputlen + 1)
      invariant Rest(input, inputlen, start) == got + Rest(input, inputlen, inptr)
      decreases 4 - i
    {
      CodeInRange(input[Skip(input, inputlen, inptr)]);
      RestSkips(input, inputlen, inptr, Skip(input, inputlen, inptr));
      var v;
      v, inptr := NextCode(input, inputlen, inptr);
      if inptr <= inputlen {
        n := n + 1;
        quad[i] := v - 1;
        got := got + [v - 1];
      } else {
        quad[i] := 0;
      }
      i := i + 1;
    }
  }

  function DecodedGroup(got: seq<sextet>): (data: seq<byte>)
    requires |got| <= 4
    ensures |data| == if |got| == 0 then 0 else |got| - 1
  {
    if |got| < 4 then DecodedTail(got)
    else [First(got[0], got[1]), Second(got[1], got[2]), Third(got[2], got[3])]
  }

  /** Three bytes are written; those that count belong to the group. */
  method DecodeOnto(out: array<byte>, at: nat, quad: array<sextet>, ghost got: seq<sextet>)
    requires at + 3 <= out.Length && quad.Length == 4 && 0 < |got| <= 4 && quad[..|got|] == got
    modifies out
    ensures out[..at + (|got| - 1)] == old(out[..at]) + DecodedGroup(got)
  {
    ghost var before := out[..at];
    assert forall k :: 0 <= k < |got| ==> quad[k] == got[k];
    out[at] := First(quad[0], quad[1]);
    out[at + 1] := Second(quad[1], quad[2]);
    out[at + 2] := Third(quad[2], quad[3]);
    assert out[..at] == before;
    hide First, Second, Third;
  }

  /** ILibBase64Decode: the byte behind the text is read, and never counts. */
  method Decode(input: string, inputlen: nat) returns (output: array?<byte>, len: nat)
    requires inputlen > 0 ==> inputlen < |input|
    ensures inputlen == 0 ==> output == null && len == 0
    ensures inputlen > 0 ==>
      && output != null && fresh(output) && output.Length == inputlen * 3 / 4 + 4
      && len < output.Length && output[len] == 0
      && output[..len] == Decoded(Sextets(input[..inputlen]))
  {
    if inputlen == 0 {
      return null, 0;
    }
    var buffer := new byte[inputlen * 3 / 4 + 4];
    len := DecodeGroups(buffer, input, inputlen);
    ghost var data := buffer[..len];
    buffer[len] := 0;
    assert buffer[..len] == data;
    output := buffer;
  }

  method DecodeGroups(buffer: array<byte>, input: string, inputlen: nat) returns (out: nat)
    requires inputlen < |input| && 3 * inputlen + 12 < 4 * buffer.Length
    modifies buffer
    ensures out < buffer.Length && buffer[..out] == Decoded(Sextets(input[..inputlen]))
  {
    var quad := new sextet[4];
    var inptr := 0;
    out := 0;
    ghost var all := Rest(input, inputlen, 0);
    assert all == Sextets(input[..inputlen]) && Rest(input, inputlen, inputlen + 1) == [] && Decoded([]) == [];
    hide Rest, Sextets, Decoded, DecodedGroup;
    while inptr <= inputlen
      invariant inptr <= inputlen + 1 && out < buffer.Length && (inptr <= inputlen ==> 4 * out <= 3 * inptr)
      invariant buffer[..out] + Decoded(Rest(input, inputlen, inptr)) == Decoded(all)
      decreases inputlen + 1 - inptr
    {
      inptr, out := DecodeNext(buffer, out, input, inputlen, inptr, quad);
    }
  }

  /** One group. */
  method DecodeNext(buffer: array<byte>, at: nat, input: string, inputlen: nat, start: nat, quad: array<sextet>)
    returns (inptr: nat, out: nat)
    requires start <= inputlen < |input| && quad.Length == 4 && at + 3 < buffer.Length
    modifies buffer, quad
    ensures start < inptr <= inputlen + 1 && at <= out <= at + 3
    ensures inptr <= inputlen ==> out == at + 3 && inptr >= start + 4
    ensures buffer[..out] + Decoded(Rest(input, inputlen, inptr))
      == old(buffer[..at]) + Decoded(Rest(input, inputlen, start))
  {
    hide Rest, Decoded, DecodedGroup;
    var n;
    ghost var got;
    n, inptr, got := FetchGroup(input, inputlen, start, quad);
    ghost var text, rest := buffer[..at], Rest(input, inputlen, inptr);
    NothingLeft(input, inputlen);
    GroupDecodes(text, got, rest);
    out := at;
    if n > 0 {
      DecodeOnto(buffer, at, quad, got);
      out := at + (n - 1);
    }
  }

  lemma NothingLeft(input: string, inputlen: nat)
    requires inputlen < |input|
    ensures Rest(input, inputlen, inputlen + 1) == []
  {
  }

  lemma GroupDecodes(text: seq<byte>, got: seq<sextet>, rest: seq<sextet>)
    requires |got| <= 4 && (|got| < 4 ==> rest == [])
    ensures text + Decoded(got + rest) == text + DecodedGroup(got) + Decoded(rest)
    ensures got == [] ==> text + DecodedGroup(got) == text
  {
    if |got| == 4 {
      DecodedMore(got, rest);
    } else {
      assert got + rest == got;
    }
    Sequences.Assoc(text, DecodedGroup(got), Decoded(rest));
  }
}
