/**
 Codes that write each symbol as a nonempty run of units and can be read back
 from left to right. UTF-8 and the Markdown escapes are instances.
 */
module PrefixCodes {
  import opened Prelude

  datatype Taken<S> = Symbol(value: S, size: nat) | Bad(size: nat)

  function Encode<S, B>(enc: S -> seq<B>, s: seq<S>): seq<B> {
    if s == [] then [] else enc(s[0]) + Encode(enc, s[1..])
  }

  function Decode<S, B>(take: seq<B> -> Taken<S>, b: seq<B>): Option<seq<S>> {
    if b == [] then Some([])
    else
      var t := take(b);
      if t.Bad? || t.size == 0 || t.size > |b| then None
      else
        var rest := Decode(take, b[t.size..]);
        if rest.None? then None else Some([t.value] + rest.value)
  }

  predicate SymbolReadsBack<S(==), B(==)>(enc: S -> seq<B>, take: seq<B> -> Taken<S>, c: S, rest: seq<B>) {
    enc(c) != [] && take(enc(c) + rest) == Symbol(c, |enc(c)|)
  }

  predicate SymbolIsEncoded<S, B(==)>(enc: S -> seq<B>, take: seq<B> -> Taken<S>, b: seq<B>) {
    take(b).Symbol? ==> 0 < take(b).size <= |b| && enc(take(b).value) == b[..take(b).size]
  }

  // Whatever follows it, an encoded symbol is read back as itself.
  ghost predicate ReadsBack<S(!new), B(!new)>(enc: S -> seq<B>, take: seq<B> -> Taken<S>) {
    forall c, rest :: SymbolReadsBack(enc, take, c, rest)
  }

  // Nothing but an encoded symbol is read as a symbol.
  ghost predicate ReadsOnly<S(!new), B(!new)>(enc: S -> seq<B>, take: seq<B> -> Taken<S>) {
    forall b :: SymbolIsEncoded(enc, take, b)
  }

  lemma {:induction false} EncodeConcat<S, B>(enc: S -> seq<B>, s: seq<S>, t: seq<S>)
    ensures Encode(enc, s + t) == Encode(enc, s) + Encode(enc, t)
  {
    if s == [] {
      assert s + t == t;
    } else {
      assert (s + t)[1..] == s[1..] + t;
      EncodeConcat(enc, s[1..], t);
    }
  }

  lemma Head<S(!new), B(!new)>(enc: S -> seq<B>, take: seq<B> -> Taken<S>, s: seq<S>)
    requires ReadsBack(enc, take) && s != []
    ensures Encode(enc, s) != []
    ensures enc(s[0]) != [] && take(Encode(enc, s)) == Symbol(s[0], |enc(s[0])|)
    ensures Encode(enc, s)[|enc(s[0])|..] == Encode(enc, s[1..])
  {
    assert SymbolReadsBack(enc, take, s[0], Encode(enc, s[1..]));
  }

  lemma {:induction false} DecodeEncoded<S(!new), B(!new)>(enc: S -> seq<B>, take: seq<B> -> Taken<S>, s: seq<S>)
    requires ReadsBack(enc, take)
    ensures Decode(take, Encode(enc, s)) == Some(s)
  {
    if s != [] {
      Head(enc, take, s);
      DecodeEncoded(enc, take, s[1..]);
      assert s == [s[0]] + s[1..];
    }
  }

  lemma {:induction false} EncodedDecode<S(!new), B(!new)>(enc: S -> seq<B>, take: seq<B> -> Taken<S>, b: seq<B>)
    requires ReadsOnly(enc, take)
    ensures Decode(take, b).Some? ==> Encode(enc, Decode(take, b).value) == b
    decreases |b|
  {
    if b != [] && Decode(take, b).Some? {
      assert SymbolIsEncoded(enc, take, b);
      var t := take(b);
      var rest := Decode(take, b[t.size..]).value;
      EncodedDecode(enc, take, b[t.size..]);
      assert ([t.value] + rest)[1..] == rest;
      assert b == b[..t.size] + b[t.size..];
    }
  }

  // An encoding that starts another encoding is the encoding of a prefix.
  lemma {:induction false} PrefixOfEncoding<S(!new), B(!new)>(enc: S -> seq<B>, take: seq<B> -> Taken<S>, s: seq<S>, t: seq<S>)
    requires ReadsBack(enc, take) && Encode(enc, t) <= Encode(enc, s)
    ensures t <= s
  {
    if t != [] {
      var c := enc(t[0]);
      Head(enc, take, t);
      assert Encode(enc, s) == c + Encode(enc, s)[|c|..];
      assert s != [] && SymbolReadsBack(enc, take, t[0], Encode(enc, s)[|c|..]);
      Head(enc, take, s);
      PrefixOfEncoding(enc, take, s[1..], t[1..]);
      assert t == [t[0]] + t[1..] && s == [s[0]] + s[1..];
    }
  }
}
