/**
 Base64 (sections 4 and 5 of RFC 4648): the padded standard alphabet of relay
 bodies, and the unpadded URL-safe alphabet of cursors and capabilities.
 */
module Base64 {
  import opened Prelude
  import opened Utf8

  datatype Alphabet = Standard | UrlSafe

  type Sextet = x: int | 0 <= x < 64

  // What one character of a Base64 text stands for.
  datatype Mark = Six(v: Sextet) | Pad | Junk

  // ------------------------------------------------------------ characters

  function Write(a: Alphabet, m: Mark): (c: char)
    requires !m.Junk?
    ensures c == '=' <==> m.Pad?
  {
    if m.Pad? then '='
    else if m.v < 26 then ('A' as int + m.v) as char
    else if m.v < 52 then ('a' as int + m.v - 26) as char
    else if m.v < 62 then ('0' as int + m.v - 52) as char
    else if m.v == 62 then (if a.Standard? then '+' else '-')
    else if a.Standard? then '/' else '_'
  }

  // The decoder maps the URL-safe digits to the standard ones first, so in the
  // URL-safe alphabet the standard digits are still read.
  function Read(a: Alphabet, c: char): Mark {
    if 'A' <= c <= 'Z' then Six(c as int - 'A' as int)
    else if 'a' <= c <= 'z' then Six(c as int - 'a' as int + 26)
    else if '0' <= c <= '9' then Six(c as int - '0' as int + 52)
    else if c == '+' || (a.UrlSafe? && c == '-') then Six(62)
    else if c == '/' || (a.UrlSafe? && c == '_') then Six(63)
    else if c == '=' then Pad
    else Junk
  }

  function WriteAll(a: Alphabet, marks: seq<Mark>): (s: string)
    requires Junk !in marks
    ensures |s| == |marks|
  {
    seq(|marks|, i requires 0 <= i < |marks| => Write(a, marks[i]))
  }

  function ReadAll(a: Alphabet, s: string): (marks: seq<Mark>)
    ensures |marks| == |s|
  {
    seq(|s|, i requires 0 <= i < |s| => Read(a, s[i]))
  }

  lemma ReadWritten(a: Alphabet, marks: seq<Mark>)
    requires Junk !in marks
    ensures ReadAll(a, WriteAll(a, marks)) == marks
  {
    forall i | 0 <= i < |marks|
      ensures ReadAll(a, WriteAll(a, marks))[i] == marks[i]
    {
      assert Read(a, Write(a, marks[i])) == marks[i];
    }
  }

  // ------------------------------------------------------------ groups

  function Group(x: Byte, y: Byte, z: Byte): (g: seq<Mark>)
    ensures |g| == 4
  {
    [Six(x / 4), Six(x % 4 * 16 + y / 16), Six(y % 16 * 4 + z / 64), Six(z % 64)]
  }

  function Unpadded(b: seq<Byte>): (marks: seq<Mark>)
    ensures Pad !in marks && Junk !in marks
  {
    if |b| == 0 then []
    else if |b| == 1 then Group(b[0], 0, 0)[..2]
    else if |b| == 2 then Group(b[0], b[1], 0)[..3]
    else Group(b[0], b[1], b[2]) + Unpadded(b[3..])
  }

  function Repeat<T>(x: T, n: nat): seq<T> {
    seq(n, _ => x)
  }

  // How many characters complete the last group of four.
  function Missing(length: nat): (n: nat)
    ensures n < 4 && (length + n) % 4 == 0
  {
    var n: int := length;
    -n % 4
  }

  function Padded(b: seq<Byte>): (marks: seq<Mark>)
    ensures Junk !in marks
  {
    Unpadded(b) + Repeat(Pad, Missing(|Unpadded(b)|))
  }

  // The last group may end in one or two pad characters.
  function Ungroup(g: seq<Mark>, last: bool): Option<seq<Byte>>
    requires |g| == 4
  {
    if !g[0].Six? || !g[1].Six? then None
    else
      var x: Byte := g[0].v * 4 + g[1].v / 16;
      if last && g[2].Pad? && g[3].Pad? then Some([x])
      else if !g[2].Six? then None
      else
        var y: Byte := g[1].v % 16 * 16 + g[2].v / 4;
        if last && g[3].Pad? then Some([x, y])
        else if !g[3].Six? then None
        else Some([x, y, g[2].v % 4 * 64 + g[3].v])
  }

  predicate AllPads(marks: seq<Mark>) {
    forall i :: 0 <= i < |marks| ==> marks[i].Pad?
  }

  // After whole groups any number of pad characters is read over.
  function Bytes(marks: seq<Mark>): Option<seq<Byte>> {
    if AllPads(marks) then Some([])
    else if |marks| < 4 then None
    else
      var group := Ungroup(marks[..4], |marks| == 4);
      var rest := Bytes(marks[4..]);
      if group.None? || rest.None? then None else Some(group.value + rest.value)
  }

  lemma Regroup(x: int, y: int, z: int, p: int, q: int)
    requires p == x % 4 * 16 + y / 16 && q == y % 16 * 4 + z / 64
    requires 0 <= x < 256 && 0 <= y < 256 && 0 <= z < 256
    ensures p / 16 == x % 4 && p % 16 == y / 16 && q / 4 == y % 16 && q % 4 == z / 64
    ensures x / 4 * 4 + p / 16 == x && p % 16 * 16 + q / 4 == y && q % 4 * 64 + z % 64 == z
  {
  }

  lemma UngroupThree(x: Byte, y: Byte, z: Byte, last: bool)
    ensures Ungroup(Group(x, y, z), last) == Some([x, y, z])
  {
    var g := Group(x, y, z);
    Regroup(x, y, z, g[1].v, g[2].v);
  }

  lemma UngroupTwo(x: Byte, y: Byte)
    ensures Ungroup(Group(x, y, 0)[..3] + [Pad], true) == Some([x, y])
  {
    var g := Group(x, y, 0);
    Regroup(x, y, 0, g[1].v, g[2].v);
    assert g[..3] + [Pad] == [g[0], g[1], g[2], Pad];
  }

  lemma UngroupOne(x: Byte)
    ensures Ungroup(Group(x, 0, 0)[..2] + [Pad, Pad], true) == Some([x])
  {
    var g := Group(x, 0, 0);
    Regroup(x, 0, 0, g[1].v, g[2].v);
    assert g[..2] + [Pad, Pad] == [g[0], g[1], Pad, Pad];
  }

  lemma LastGroup(marks: seq<Mark>)
    requires |marks| == 4 && marks[0].Six?
    ensures Bytes(marks) == Ungroup(marks, true)
  {
    assert marks[..4] == marks && Bytes(marks[4..]) == Some([]);
    var group := Ungroup(marks, true);
    assert group.Some? ==> group.value + [] == group.value;
  }

  function GroupsOf(length: nat): nat {
    (length + 2) / 3
  }

  lemma {:induction false} UnpaddedLength(b: seq<Byte>)
    ensures |Unpadded(b)| == |b| + GroupsOf(|b|)
  {
    if |b| >= 3 {
      UnpaddedLength(b[3..]);
    }
  }

  lemma PaddedLength(b: seq<Byte>)
    ensures |Padded(b)| == 4 * GroupsOf(|b|)
  {
    UnpaddedLength(b);
  }

  function First(b: seq<Byte>): (g: seq<Mark>)
    requires |b| >= 3
    ensures |g| == 4
  {
    Group(b[0], b[1], b[2])
  }

  lemma MissingStep(n: nat)
    ensures Missing(4 + n) == Missing(n)
  {
  }

  lemma PaddedStep(b: seq<Byte>)
    requires |b| >= 3
    ensures Padded(b) == First(b) + Padded(b[3..])
  {
    var group, rest := First(b), Unpadded(b[3..]);
    assert Unpadded(b) == group + rest;
    MissingStep(|rest|);
    var pads := Repeat<Mark>(Pad, Missing(|rest|));
    assert (group + rest) + pads == group + (rest + pads);
  }

  function Behind(front: seq<Byte>, rest: Option<seq<Byte>>): Option<seq<Byte>> {
    if rest.None? then None else Some(front + rest.value)
  }

  lemma WholeGroup(b: seq<Byte>, marks: seq<Mark>)
    requires |b| >= 3
    ensures Bytes(First(b) + marks) == Behind(b[..3], Bytes(marks))
  {
    var group := First(b);
    UngroupThree(b[0], b[1], b[2], marks == []);
    assert b[..3] == [b[0], b[1], b[2]];
    assert (group + marks)[..4] == group && (group + marks)[4..] == marks && (group + marks)[0].Six?;
  }

  lemma {:induction false} BytesOfPadded(b: seq<Byte>)
    ensures Bytes(Padded(b)) == Some(b)
  {
    var marks := Padded(b);
    if |b| == 1 {
      assert marks == Group(b[0], 0, 0)[..2] + [Pad, Pad];
      LastGroup(marks);
      UngroupOne(b[0]);
      assert b == [b[0]];
    } else if |b| == 2 {
      assert marks == Group(b[0], b[1], 0)[..3] + [Pad];
      LastGroup(marks);
      UngroupTwo(b[0], b[1]);
      assert b == [b[0], b[1]];
    } else if |b| >= 3 {
      PaddedStep(b);
      BytesOfPadded(b[3..]);
      WholeGroup(b, Padded(b[3..]));
      assert b == b[..3] + b[3..];
    }
  }

  lemma EndedGroup(group: seq<Mark>, surplus: seq<Mark>)
    requires |group| == 4 && group[0].Six? && group[3].Pad? && surplus != []
    ensures Bytes(group + surplus) == None
  {
    var marks := group + surplus;
    assert marks[..4] == group && !marks[0].Pad?;
  }

  lemma LastPad(b: seq<Byte>)
    requires |b| == 1 || |b| == 2
    ensures |Padded(b)| == 4 && Padded(b)[0].Six? && Padded(b)[3].Pad?
  {
    assert |Unpadded(b)| == |b| + 1;
    assert Missing(2) == 2 && Missing(3) == 1;
  }

  function OrNone(whole: bool, b: seq<Byte>): Option<seq<Byte>> {
    if whole then Some(b) else None
  }

  lemma ThreeMore(n: nat)
    ensures (3 + n) % 3 == n % 3
  {
  }

  lemma {:induction false} BytesOfSurplus(b: seq<Byte>, n: nat)
    requires b != [] && n > 0
    ensures Bytes(Padded(b) + Repeat(Pad, n)) == OrNone(|b| % 3 == 0, b)
    decreases |b|, 0
  {
    var surplus := Repeat<Mark>(Pad, n);
    if |b| <= 2 {
      LastPad(b);
      EndedGroup(Padded(b), surplus);
    } else {
      SurplusBehind(b[3..], n);
      SurplusStep(b, n);
    }
  }

  lemma SurplusStep(b: seq<Byte>, n: nat)
    requires |b| >= 3
    requires Bytes(Padded(b[3..]) + Repeat(Pad, n)) == OrNone(|b[3..]| % 3 == 0, b[3..])
    ensures Bytes(Padded(b) + Repeat(Pad, n)) == OrNone(|b| % 3 == 0, b)
  {
    var surplus := Repeat<Mark>(Pad, n);
    var behind := Padded(b[3..]) + surplus;
    PaddedStep(b);
    assert (First(b) + Padded(b[3..])) + surplus == First(b) + behind;
    WholeGroup(b, behind);
    ThreeMore(|b[3..]|);
    assert b[..3] + b[3..] == b;
  }

  lemma SurplusBehind(rest: seq<Byte>, n: nat)
    requires n > 0
    ensures Bytes(Padded(rest) + Repeat(Pad, n)) == OrNone(|rest| % 3 == 0, rest)
    decreases |rest|, 1
  {
    if rest == [] {
      assert Padded(rest) + Repeat(Pad, n) == Repeat<Mark>(Pad, n);
    } else {
      BytesOfSurplus(rest, n);
    }
  }

  lemma {:induction false} BytesLength(marks: seq<Mark>)
    requires Bytes(marks).Some?
    ensures var used := 4 * GroupsOf(|Bytes(marks).value|); used <= |marks| && AllPads(marks[used..])
  {
    if !AllPads(marks) {
      var group, rest := Ungroup(marks[..4], |marks| == 4).value, Bytes(marks[4..]).value;
      BytesLength(marks[4..]);
      GroupLength(group, rest, |marks|);
      var used := 4 * GroupsOf(|rest|);
      assert marks[4 + used..] == marks[4..][used..];
    } else {
      assert marks[0..] == marks;
    }
  }

  lemma GroupLength(group: seq<Byte>, rest: seq<Byte>, length: nat)
    requires 1 <= |group| <= 3 && (|group| == 3 || rest == [])
    ensures GroupsOf(|group + rest|) == 1 + GroupsOf(|rest|)
  {
  }

  // ------------------------------------------------------------ texts

  function Encode(a: Alphabet, b: seq<Byte>): string {
    WriteAll(a, Padded(b))
  }

  function Decode(a: Alphabet, s: string): Option<seq<Byte>> {
    if s != "" && s[0] == '=' then None else Bytes(ReadAll(a, s))
  }

  function StripPadding(s: string): string {
    if s != "" && s[|s| - 1] == '=' then StripPadding(s[..|s| - 1]) else s
  }

  function Repad(s: string): string {
    s + Repeat('=', Missing(|s|))
  }

  // Decoding undoes encoding, and the encoding of n bytes has 4 * ceil(n / 3) characters.
  lemma DecodeEncode(a: Alphabet, b: seq<Byte>)
    ensures Decode(a, Encode(a, b)) == Some(b)
    ensures |Encode(a, b)| == 4 * GroupsOf(|b|)
  {
    ReadWritten(a, Padded(b));
    BytesOfPadded(b);
    PaddedLength(b);
  }

  // An accepted text has one group of four characters for every three bytes begun, and
  // nothing but surplus padding behind them.
  lemma DecodedLength(a: Alphabet, s: string)
    requires Decode(a, s).Some?
    ensures var used := 4 * GroupsOf(|Decode(a, s).value|);
            used <= |s| && forall i :: used <= i < |s| ==> s[i] == '='
  {
    var marks := ReadAll(a, s);
    BytesLength(marks);
    var used := 4 * GroupsOf(|Bytes(marks).value|);
    forall i | used <= i < |s|
      ensures s[i] == '='
    {
      assert marks[used..][i - used].Pad?;
    }
  }

  lemma ReadSurplus(a: Alphabet, marks: seq<Mark>, n: nat)
    requires Junk !in marks
    ensures ReadAll(a, WriteAll(a, marks) + Repeat('=', n)) == marks + Repeat(Pad, n)
  {
    ReadWritten(a, marks);
  }

  // Surplus padding is accepted behind whole groups, and only there.
  lemma SurplusPadding(a: Alphabet, b: seq<Byte>, n: nat)
    requires b != [] && n > 0
    ensures Decode(a, Encode(a, b) + Repeat('=', n)) == OrNone(|b| % 3 == 0, b)
  {
    var marks := Padded(b) + Repeat(Pad, n);
    ReadSurplus(a, Padded(b), n);
    BytesOfSurplus(b, n);
  }

  lemma {:induction false} StripOfPadded(s: string, n: nat)
    requires '=' !in s
    ensures StripPadding(s + Repeat('=', n)) == s
  {
    var t := s + Repeat('=', n);
    if n == 0 {
      assert t == s;
    } else {
      assert t[..|t| - 1] == s + Repeat('=', n - 1);
      StripOfPadded(s, n - 1);
    }
  }

  // Dropping the padding and computing it again from the length gives back the
  // padded text, for every number of bytes.
  lemma StripThenRepad(a: Alphabet, b: seq<Byte>)
    ensures Repad(StripPadding(Encode(a, b))) == Encode(a, b)
    ensures '=' !in StripPadding(Encode(a, b))
  {
    var u := WriteAll(a, Unpadded(b));
    assert Encode(a, b) == u + Repeat('=', Missing(|u|));
    StripOfPadded(u, Missing(|u|));
  }
}
