/**
 UTF-8 (section 3 of RFC 3629): encoding, strict decoding, decoding with
 replacement characters, and truncation to a byte budget. A string is a
 sequence of Unicode scalar values.
 */
module Utf8 {
  import opened Prelude
  import opened PrefixCodes

  type Byte = x: int | 0 <= x < 256

  const REPLACEMENT: char := '\U{FFFD}'

  // ------------------------------------------------------------ encoding

  function Width(c: char): (n: nat)
    ensures 1 <= n <= 4
  {
    var x := c as int;
    if x < 0x80 then 1 else if x < 0x800 then 2 else if x < 0x10000 then 3 else 4
  }

  function EncodeChar(c: char): (b: seq<Byte>)
    ensures |b| == Width(c)
  {
    var x := c as int;
    if x < 0x80 then [x]
    else if x < 0x800 then [0xC0 + x / 64, 0x80 + x % 64]
    else if x < 0x10000 then [0xE0 + x / 4096, 0x80 + x / 64 % 64, 0x80 + x % 64]
    else [0xF0 + x / 262144, 0x80 + x / 4096 % 64, 0x80 + x / 64 % 64, 0x80 + x % 64]
  }

  function Encode(s: string): seq<Byte> {
    PrefixCodes.Encode(EncodeChar, s)
  }

  // ------------------------------------------------------------ decoding

  predicate Continuation(x: Byte) {
    0x80 <= x <= 0xBF
  }

  // The second byte of a three-byte sequence: no overlong forms, no surrogates.
  predicate SecondOfThree(first: Byte, second: Byte) {
    && Continuation(second)
    && (first == 0xE0 ==> second >= 0xA0)
    && (first == 0xED ==> second <= 0x9F)
  }

  // The second byte of a four-byte sequence: no overlong forms, nothing above 10FFFF.
  predicate SecondOfFour(first: Byte, second: Byte) {
    && Continuation(second)
    && (first == 0xF0 ==> second >= 0x90)
    && (first == 0xF4 ==> second <= 0x8F)
  }

  function Join2(a: int, b: int): int {
    (a - 0xC0) * 64 + (b - 0x80)
  }

  function Join3(a: int, b: int, c: int): int {
    (a - 0xE0) * 4096 + (b - 0x80) * 64 + (c - 0x80)
  }

  function Join4(a: int, b: int, c: int, d: int): int {
    (a - 0xF0) * 262144 + (b - 0x80) * 4096 + (c - 0x80) * 64 + (d - 0x80)
  }

  // The first character, or the longest start of one that cannot be finished.
  function Take(b: seq<Byte>): (r: Taken<char>)
    ensures b != [] ==> 1 <= r.size <= |b|
  {
    if b == [] then Bad(0)
    else
      var x: int := b[0];
      if x < 0x80 then Symbol(x as char, 1)
      else if 0xC2 <= x <= 0xDF then
        if |b| < 2 || !Continuation(b[1]) then Bad(1)
        else Symbol(Join2(x, b[1]) as char, 2)
      else if 0xE0 <= x <= 0xEF then
        if |b| < 2 || !SecondOfThree(x, b[1]) then Bad(1)
        else if |b| < 3 || !Continuation(b[2]) then Bad(2)
        else Symbol(Join3(x, b[1], b[2]) as char, 3)
      else if 0xF0 <= x <= 0xF4 then
        if |b| < 2 || !SecondOfFour(x, b[1]) then Bad(1)
        else if |b| < 3 || !Continuation(b[2]) then Bad(2)
        else if |b| < 4 || !Continuation(b[3]) then Bad(3)
        else Symbol(Join4(x, b[1], b[2], b[3]) as char, 4)
      else Bad(1)
  }

  function Decode(b: seq<Byte>): Option<string> {
    PrefixCodes.Decode(Take, b)
  }

  function DecodeReplacing(b: seq<Byte>): string {
    if b == [] then ""
    else
      var t := Take(b);
      [if t.Symbol? then t.value else REPLACEMENT] + DecodeReplacing(b[t.size..])
  }

  lemma JoinSplit(x: int)
    requires 0 <= x
    ensures Join2(0xC0 + x / 64, 0x80 + x % 64) == x
    ensures Join3(0xE0 + x / 4096, 0x80 + x / 64 % 64, 0x80 + x % 64) == x
    ensures Join4(0xF0 + x / 262144, 0x80 + x / 4096 % 64, 0x80 + x / 64 % 64, 0x80 + x % 64) == x
  {
    assert x / 4096 == x / 64 / 64;
    assert x / 262144 == x / 4096 / 64;
  }

  lemma TakeTwo(b: seq<Byte>)
    requires |b| >= 2 && 0xC2 <= b[0] <= 0xDF && Continuation(b[1])
    ensures Take(b) == Symbol(Join2(b[0], b[1]) as char, 2)
    ensures EncodeChar(Take(b).value) == [b[0], b[1]]
  {
  }

  lemma TakeThree(b: seq<Byte>)
    requires |b| >= 3 && 0xE0 <= b[0] <= 0xEF && SecondOfThree(b[0], b[1]) && Continuation(b[2])
    ensures Take(b) == Symbol(Join3(b[0], b[1], b[2]) as char, 3)
    ensures EncodeChar(Take(b).value) == [b[0], b[1], b[2]]
  {
    var p: int, q: int := b[0] - 0xE0, b[1] - 0x80;
    assert Join3(b[0], b[1], b[2]) / 64 == p * 64 + q;
  }

  lemma Digits64(p: int, q: int, r: int, t: int)
    requires 0 <= p && 0 <= q < 64 && 0 <= r < 64 && 0 <= t < 64
    ensures var x := ((p * 64 + q) * 64 + r) * 64 + t;
            x % 64 == t && x / 64 == (p * 64 + q) * 64 + r && x / 64 % 64 == r && x / 4096 == p * 64 + q
            && x / 4096 % 64 == q && x / 262144 == p
  {
  }

  lemma TakeFour(b: seq<Byte>)
    requires |b| >= 4 && 0xF0 <= b[0] <= 0xF4 && SecondOfFour(b[0], b[1]) && Continuation(b[2]) && Continuation(b[3])
    ensures Take(b) == Symbol(Join4(b[0], b[1], b[2], b[3]) as char, 4)
    ensures EncodeChar(Take(b).value) == [b[0], b[1], b[2], b[3]]
  {
    Digits64(b[0] - 0xF0, b[1] - 0x80, b[2] - 0x80, b[3] - 0x80);
  }

  lemma TakeEncoded(c: char, rest: seq<Byte>)
    ensures Take(EncodeChar(c) + rest) == Symbol(c, |EncodeChar(c)|)
  {
    JoinSplit(c as int);
    var b := EncodeChar(c) + rest;
    if Width(c) == 2 {
      TakeTwo(b);
    } else if Width(c) == 3 {
      TakeThree(b);
    } else if Width(c) == 4 {
      TakeFour(b);
    }
  }

  lemma EncodedTake(b: seq<Byte>)
    requires Take(b).Symbol?
    ensures EncodeChar(Take(b).value) == b[..Take(b).size]
  {
    if Take(b).size == 2 {
      TakeTwo(b);
    } else if Take(b).size == 3 {
      TakeThree(b);
    } else if Take(b).size == 4 {
      TakeFour(b);
    }
  }

  lemma CodeReads()
    ensures ReadsBack<char, Byte>(EncodeChar, Take) && ReadsOnly<char, Byte>(EncodeChar, Take)
  {
    forall c: char, rest: seq<Byte>
      ensures SymbolReadsBack(EncodeChar, Take, c, rest)
    {
      TakeEncoded(c, rest);
    }
    forall b: seq<Byte>
      ensures SymbolIsEncoded(EncodeChar, Take, b)
    {
      if Take(b).Symbol? {
        EncodedTake(b);
      }
    }
  }

  // Strict decoding undoes encoding, and accepts nothing but encodings.
  lemma DecodeInvertsEncode(s: string, b: seq<Byte>)
    ensures Decode(b) == Some(s) <==> b == Encode(s)
  {
    CodeReads();
    PrefixCodes.DecodeEncoded(EncodeChar, Take, s);
    PrefixCodes.EncodedDecode(EncodeChar, Take, b);
  }

  lemma PrefixOfEncoding(s: string, t: string)
    requires Encode(t) <= Encode(s)
    ensures t <= s
  {
    CodeReads();
    PrefixCodes.PrefixOfEncoding(EncodeChar, Take, s, t);
  }

  lemma EncodeAppend(s: string, c: char)
    ensures Encode(s + [c]) == Encode(s) + EncodeChar(c)
  {
    EncodeConcat(EncodeChar, s, [c]);
    assert PrefixCodes.Encode(EncodeChar, [c]) == EncodeChar(c) + PrefixCodes.Encode(EncodeChar, []);
  }

  // ------------------------------------------------------------ replacement

  lemma ReplacedStep(b: seq<Byte>)
    requires b != []
    ensures DecodeReplacing(b) != ""
    ensures DecodeReplacing(b)[1..] == DecodeReplacing(b[Take(b).size..])
    ensures Width(DecodeReplacing(b)[0]) <= 3 * Take(b).size
  {
    var t := Take(b);
    if t.Symbol? {
      EncodedTake(b);
    }
    assert DecodeReplacing(b) == [if t.Symbol? then t.value else REPLACEMENT] + DecodeReplacing(b[t.size..]);
  }

  // A replaced body has no more characters than bytes, and at most triples in size.
  lemma {:induction false} ReplacedSize(b: seq<Byte>)
    ensures |DecodeReplacing(b)| <= |b|
    ensures |Encode(DecodeReplacing(b))| <= 3 * |b|
    decreases |b|
  {
    if b != [] {
      ReplacedStep(b);
      ReplacedSize(b[Take(b).size..]);
    }
  }

  lemma {:induction false} ReplacingValidIsStrict(b: seq<Byte>)
    ensures Decode(b).Some? ==> DecodeReplacing(b) == Decode(b).value
    decreases |b|
  {
    if b != [] {
      ReplacingValidIsStrict(b[Take(b).size..]);
    }
  }

  // ------------------------------------------------------------ truncation

  // Where the slice value[:maxBytes] ends; a negative bound counts from the end.
  function SliceEnd(length: nat, maxBytes: int): (k: nat)
    ensures k <= length
  {
    if maxBytes >= length then length
    else if maxBytes >= 0 then maxBytes
    else if length + maxBytes >= 0 then length + maxBytes
    else 0
  }

  lemma PrefixFits(value: string, k: nat)
    requires k <= |value|
    ensures Encode(value[..k]) <= Encode(value)
  {
    assert value == value[..k] + value[k..];
    EncodeConcat(EncodeChar, value[..k], value[k..]);
  }

  lemma LongerIsBigger(value: string, j: nat, k: nat)
    requires j < k <= |value|
    ensures |Encode(value[..j])| < |Encode(value[..k])|
  {
    var longer := value[..k];
    var shorter := longer[..j];
    assert value[..j] == shorter;
    EncodeAppend(shorter, longer[j]);
    assert longer[..j + 1] == shorter + [longer[j]];
    PrefixFits(longer, j + 1);
  }

  // The longest prefix of value whose encoding has at most limit bytes.
  ghost predicate LongestPrefix(value: string, limit: nat, r: string) {
    && r <= value
    && |Encode(r)| <= limit
    && forall k :: 0 <= k <= |value| && |Encode(value[..k])| <= limit ==> k <= |r|
  }

  // A start of the encoding decodes exactly when it ends a character.
  lemma CutDecodes(value: string, n: nat)
    requires n <= |Encode(value)| && Decode(Encode(value)[..n]).Some?
    ensures var r := Decode(Encode(value)[..n]).value; r <= value && |Encode(r)| == n
  {
    var cut := Encode(value)[..n];
    DecodeInvertsEncode(Decode(cut).value, cut);
    PrefixOfEncoding(value, Decode(cut).value);
  }

  lemma LongestCut(value: string, limit: nat, r: string)
    requires limit <= |Encode(value)| && r <= value && |Encode(r)| <= limit
    requires forall n :: |Encode(r)| < n <= limit ==> Decode(Encode(value)[..n]).None?
    ensures LongestPrefix(value, limit, r)
  {
    forall k | 0 <= k <= |value| && |Encode(value[..k])| <= limit
      ensures k <= |r|
    {
      if k > |r| {
        assert r == value[..|r|];
        LongerIsBigger(value, |r|, k);
        PrefixFits(value, k);
        var cut := Encode(value[..k]);
        assert Encode(value)[..|cut|] == cut;
        DecodeInvertsEncode(value[..k], cut);
      }
    }
  }

  lemma CutLosesLittle(value: string, limit: nat, r: string)
    requires limit <= |Encode(value)| && LongestPrefix(value, limit, r)
    ensures limit < |Encode(r)| + 4
  {
    assert r == value[..|r|] && value[..|value|] == value;
    if |r| < |value| {
      EncodeAppend(r, value[|r|]);
      assert value[..|r| + 1] == r + [value[|r|]];
    }
  }

  method TruncateUtf8(value: string, maxBytes: int) returns (r: string)
    ensures |Encode(value)| <= maxBytes ==> r == value
    ensures |Encode(value)| > maxBytes ==>
              var limit := SliceEnd(|Encode(value)|, maxBytes);
              LongestPrefix(value, limit, r) && limit < |Encode(r)| + 4
    ensures maxBytes >= 0 ==> |Encode(r)| <= maxBytes
  {
    var encoded := Encode(value);
    if |encoded| <= maxBytes {
      return value;
    }
    var clipped := encoded[..SliceEnd(|encoded|, maxBytes)];
    ghost var limit := |clipped|;
    while Decode(clipped).None?
      invariant |clipped| <= limit && clipped == encoded[..|clipped|]
      invariant forall n :: |clipped| < n <= limit ==> Decode(encoded[..n]).None?
      decreases |clipped|
    {
      clipped := clipped[..|clipped| - 1];
    }
    r := Decode(clipped).value;
    CutDecodes(value, |clipped|);
    LongestCut(value, limit, r);
    CutLosesLittle(value, limit, r);
  }
}
