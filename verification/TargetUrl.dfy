/**
 Target URLs as texts: how a raw text is stripped, split and checked, what the
 normaliser writes, and when reading that again gives the same URL. The splitting of
 the network location, lower-casing and percent-decoding are library functions.
 */
module TargetUrl {
  import opened Prelude
  import opened Allowlist

  // ------------------------------------------------------------ texts

  // White space at the ends of a text is stripped.
  predicate Blank(c: char) {
    var x := c as int;
    || 0x09 <= x <= 0x0D || 0x1C <= x <= 0x20 || x == 0x85 || x == 0xA0 || x == 0x1680
    || 0x2000 <= x <= 0x200A || x == 0x2028 || x == 0x2029 || x == 0x202F || x == 0x205F || x == 0x3000
  }

  predicate EndsBlank(s: string) {
    s != "" && Blank(s[|s| - 1])
  }

  predicate EndsWith(s: string, c: char) {
    s != "" && s[|s| - 1] == c
  }

  function RStrip(s: string): (r: string)
    ensures r <= s && !EndsBlank(r) && (!EndsBlank(s) ==> r == s)
  {
    if EndsBlank(s) then RStrip(s[..|s| - 1]) else s
  }

  function LStrip(s: string): string {
    if s != "" && Blank(s[0]) then LStrip(s[1..]) else s
  }

  function Strip(s: string): string {
    LStrip(RStrip(s))
  }

  // The splitter drops control characters and blanks in front, and tabs and line
  // endings everywhere.
  function DropControls(s: string): string {
    if s != "" && s[0] <= ' ' then DropControls(s[1..]) else s
  }

  predicate Unsafe(c: char) {
    c == '\t' || c == '\r' || c == '\n'
  }

  function Clean(s: string): string {
    if s == "" then "" else (if Unsafe(s[0]) then "" else [s[0]]) + Clean(s[1..])
  }

  function Prepare(raw: string): string {
    Clean(DropControls(Strip(raw)))
  }

  // The position of the first such character, or the length.
  function Find(s: string, c: char): (n: nat)
    ensures n <= |s| && (n < |s| ==> s[n] == c) && forall i :: 0 <= i < n ==> s[i] != c
  {
    if s == "" || s[0] == c then 0 else 1 + Find(s[1..], c)
  }

  function Before(s: string, c: char): string {
    s[..Find(s, c)]
  }

  function After(s: string, c: char): string {
    if Find(s, c) == |s| then "" else s[Find(s, c) + 1..]
  }

  // ------------------------------------------------------------ splitting

  datatype Parts = Parts(scheme: string, netloc: string, path: string, query: string, fragment: string)

  predicate Letter(c: char) {
    'a' <= c <= 'z' || 'A' <= c <= 'Z'
  }

  predicate SchemeChar(c: char) {
    Letter(c) || '0' <= c <= '9' || c == '+' || c == '-' || c == '.'
  }

  predicate HasScheme(t: string) {
    && 0 < |Before(t, ':')| < |t|
    && Letter(t[0]) && forall i :: 0 <= i < |Before(t, ':')| ==> SchemeChar(t[i])
  }

  predicate EndsNetloc(c: char) {
    c == '/' || c == '?' || c == '#'
  }

  // Where the network location ends.
  function NetlocEnd(s: string): (n: nat)
    ensures n <= |s| && (n < |s| ==> EndsNetloc(s[n])) && forall i :: 0 <= i < n ==> !EndsNetloc(s[i])
  {
    if s == "" || EndsNetloc(s[0]) then 0 else 1 + NetlocEnd(s[1..])
  }

  function SplitTail(scheme: string, netloc: string, tail: string): Parts {
    var body := Before(tail, '#');
    Parts(scheme, netloc, Before(body, '?'), After(body, '?'), After(tail, '#'))
  }

  function SplitRest(scheme: string, rest: string): Parts {
    if "//" <= rest then
      var more := rest[2..];
      var n := NetlocEnd(more);
      SplitTail(scheme, more[..n], more[n..])
    else SplitTail(scheme, "", rest)
  }

  function SplitUrl(t: string): Parts {
    if HasScheme(t) then SplitRest(AsciiLower(Before(t, ':')), After(t, ':')) else SplitRest("", t)
  }

  // ------------------------------------------------------------ normalising

  datatype PortField = Absent | Number(value: nat) | Unreadable

  // A network location as the library reads it; the host is lower-cased.
  datatype Netloc = Netloc(host: string, port: PortField, credentials: bool)

  datatype Library = Library(netloc: string -> Option<Netloc>, unquote: Decoder)

  datatype UrlError =
    | Required | TooLong | Unsplittable | BadScheme | NoHost | HasCredentials | HasFragment | BadPort | BadPath

  function DefaultPort(scheme: string): nat {
    if scheme == "http" then 80 else 443
  }

  function PortOf(a: Netloc, scheme: string): nat
    requires !a.port.Unreadable?
  {
    if a.port.Number? && a.port.value != 0 then a.port.value else DefaultPort(scheme)
  }

  function NormalizeParts(lib: Library, p: Parts): (r: Result<Url, UrlError>)
    ensures r.Ok? ==> r.value.origin.port > 0
  {
    var read := lib.netloc(p.netloc);
    if read.None? then Err(Unsplittable)
    else if p.scheme != "http" && p.scheme != "https" then Err(BadScheme)
    else if read.value.host == "" then Err(NoHost)
    else if read.value.credentials then Err(HasCredentials)
    else if p.fragment != "" then Err(HasFragment)
    else if read.value.port.Unreadable? then Err(BadPort)
    else
      var path := if p.path == "" then "/" else p.path;
      if !Canonical(path, lib.unquote) then Err(BadPath)
      else Ok(Url(Origin(p.scheme, read.value.host, PortOf(read.value, p.scheme)), path, p.query))
  }

  function Normalize(lib: Library, raw: string): (r: Result<Url, UrlError>)
    ensures r.Ok? ==> r.value.origin.port > 0
  {
    if Strip(raw) == "" then Err(Required)
    else if |raw| > MAX_URL_LENGTH then Err(TooLong)
    else NormalizeParts(lib, SplitUrl(Prepare(raw)))
  }

  function Decimal(n: nat): string {
    (if n < 10 then "" else Decimal(n / 10)) + [(n % 10 + '0' as int) as char]
  }

  function WriteNetloc(host: string, port: nat): string {
    (if ':' in host then "[" + host + "]" else host) + ":" + Decimal(port)
  }

  function WriteTail(path: string, query: string): string {
    path + if query == "" then "" else "?" + query
  }

  function Text(u: Url): string
    requires u.origin.port >= 0
  {
    u.origin.scheme + "://" + WriteNetloc(u.origin.host, u.origin.port) + WriteTail(u.path, u.query)
  }

  // A network location without delimiters, tabs or line endings.
  predicate Plain(s: string) {
    forall i :: 0 <= i < |s| ==> !EndsNetloc(s[i]) && !Unsafe(s[i])
  }

  // The library reads back the location that the normaliser writes for an origin.
  ghost predicate Rereads(lib: Library, o: Origin)
    requires o.port >= 0
  {
    var w := WriteNetloc(o.host, o.port);
    Plain(w) && lib.netloc(w) == Some(Netloc(o.host, Number(o.port), false))
  }

  // The written location is longer than the raw one by no more than a default port; only
  // a host that grows when it is lower-cased can make it longer.
  ghost predicate ShortLocation(lib: Library, raw: string)
    requires Normalize(lib, raw).Ok?
  {
    var u, netloc := Normalize(lib, raw).value, SplitUrl(Prepare(raw)).netloc;
    netloc != "" && |WriteNetloc(u.origin.host, u.origin.port)| <= |netloc| + 4
  }

  // ------------------------------------------------------------ splitting what was written

  lemma SplitAt(a: string, c: char, b: string)
    requires c !in a
    ensures Before(a + [c] + b, c) == a && After(a + [c] + b, c) == b
    ensures Before(a, c) == a && After(a, c) == ""
  {
    var s := a + [c] + b;
    assert s[|a|] == c && forall i :: 0 <= i < |a| ==> s[i] == a[i];
    assert Find(s, c) == |a| && Find(a, c) == |a|;
    assert s[|a| + 1..] == b;
  }

  lemma SplitTailWritten(scheme: string, netloc: string, path: string, query: string)
    requires '#' !in path && '?' !in path && '#' !in query
    ensures SplitTail(scheme, netloc, WriteTail(path, query)) == Parts(scheme, netloc, path, query, "")
  {
    if query == "" {
      assert WriteTail(path, query) == path;
      SplitAt(path, '#', "");
      SplitAt(path, '?', "");
    } else {
      var tail := path + ['?'] + query;
      assert WriteTail(path, query) == tail;
      SplitAt(tail, '#', "");
      SplitAt(path, '?', query);
    }
  }

  lemma SplitRestWritten(scheme: string, w: string, tail: string)
    requires Plain(w) && tail != "" && EndsNetloc(tail[0])
    ensures SplitRest(scheme, "//" + (w + tail)) == SplitTail(scheme, w, tail)
  {
    var rest := "//" + (w + tail);
    var more := w + tail;
    assert rest[2..] == more;
    assert more[|w|] == tail[0] && forall i :: 0 <= i < |w| ==> more[i] == w[i];
    assert NetlocEnd(more) == |w|;
    assert more[..|w|] == w && more[|w|..] == tail;
  }

  predicate WebScheme(scheme: string) {
    scheme == "http" || scheme == "https"
  }

  function Prefix(scheme: string, w: string): string {
    scheme + ("://" + w)
  }

  lemma SplitWritten(scheme: string, w: string, tail: string)
    requires WebScheme(scheme) && Plain(w) && tail != "" && EndsNetloc(tail[0])
    ensures SplitUrl(Prefix(scheme, w) + tail) == SplitTail(scheme, w, tail)
  {
    var t := Prefix(scheme, w) + tail;
    var rest := "//" + (w + tail);
    assert t == scheme + [':'] + rest;
    SplitAt(scheme, ':', rest);
    SchemeIsKept(scheme, t);
    SplitRestWritten(scheme, w, tail);
  }

  lemma SchemeIsKept(scheme: string, t: string)
    requires WebScheme(scheme) && scheme <= t && Before(t, ':') == scheme && |scheme| < |t|
    ensures HasScheme(t) && AsciiLower(scheme) == scheme
  {
    assert forall i :: 0 <= i < |scheme| ==> t[i] == scheme[i] && Letter(scheme[i]);
  }

  // ------------------------------------------------------------ preparing what was written

  predicate Safe(s: string) {
    forall i :: 0 <= i < |s| ==> !Unsafe(s[i])
  }

  lemma {:induction false} CleanIsSafe(s: string)
    ensures Safe(Clean(s)) && (Safe(s) ==> Clean(s) == s)
  {
    if s != "" {
      var rest := s[1..];
      CleanIsSafe(rest);
      assert s == [s[0]] + rest;
      if Unsafe(s[0]) {
        assert Clean(s) == Clean(rest);
      } else {
        assert Clean(s) == [s[0]] + Clean(rest);
      }
    }
  }

  lemma PrepareWritten(t: string)
    requires t != "" && Letter(t[0]) && Safe(t)
    ensures Prepare(t) == RStrip(t) && Strip(t) != ""
  {
    var r := RStrip(t);
    KeepsFirst(t);
    assert LStrip(r) == r && DropControls(r) == r;
    CleanIsSafe(r);
  }

  lemma {:induction false} KeepsFirst(t: string)
    requires t != "" && !Blank(t[0])
    ensures RStrip(t) != "" && RStrip(t)[0] == t[0]
  {
    if EndsBlank(t) {
      KeepsFirst(t[..|t| - 1]);
    }
  }

  // Stripping the end of a whole URL only touches its tail.
  lemma {:induction false} StripsTheTail(prefix: string, tail: string)
    requires tail != "" && !Blank(tail[0])
    ensures RStrip(prefix + tail) == prefix + RStrip(tail) && RStrip(tail) != "" && RStrip(tail)[0] == tail[0]
  {
    KeepsFirst(tail);
    if EndsBlank(tail) {
      assert (prefix + tail)[..|prefix + tail| - 1] == prefix + tail[..|tail| - 1];
      StripsTheTail(prefix, tail[..|tail| - 1]);
    }
  }

  // ------------------------------------------------------------ a port written out

  lemma {:induction false} CleanJoin(a: string, b: string)
    requires Safe(a)
    ensures Clean(a + b) == a + Clean(b)
  {
    if a == "" {
      assert a + b == b;
    } else {
      assert (a + b)[1..] == a[1..] + b;
      CleanJoin(a[1..], b);
      assert a == [a[0]] + a[1..];
    }
  }

  // The tail of a URL as the splitter gets it.
  function PreparedTail(tail: string): string {
    Clean(RStrip(tail))
  }

  predicate OpenTail(tail: string) {
    tail == "" || EndsNetloc(tail[0])
  }

  lemma PreparedTailStaysOpen(tail: string)
    requires OpenTail(tail)
    ensures OpenTail(PreparedTail(tail))
  {
    if tail != "" {
      KeepsFirst(tail);
      var r := RStrip(tail);
      assert r == [r[0]] + r[1..];
      CleanJoin([r[0]], r[1..]);
    }
  }

  lemma PrepareOpen(prefix: string, tail: string)
    requires prefix != "" && Letter(prefix[0]) && Safe(prefix) && !EndsBlank(prefix) && OpenTail(tail)
    ensures Prepare(prefix + tail) == prefix + PreparedTail(tail) && Strip(prefix + tail) != ""
  {
    if tail == "" {
      assert prefix + tail == prefix && RStrip(prefix) == prefix;
    } else {
      StripsTheTail(prefix, tail);
    }
    var r := RStrip(prefix + tail);
    assert r[0] == prefix[0] && LStrip(r) == r && DropControls(r) == r;
    CleanJoin(prefix, RStrip(tail));
  }

  lemma SplitBare(scheme: string, w: string)
    requires WebScheme(scheme) && Plain(w)
    ensures SplitUrl(Prefix(scheme, w)) == SplitTail(scheme, w, "")
  {
    var t := Prefix(scheme, w);
    var rest := "//" + w;
    assert t == scheme + [':'] + rest;
    SplitAt(scheme, ':', rest);
    SchemeIsKept(scheme, t);
    assert rest[2..] == w && NetlocEnd(w) == |w| && w[..|w|] == w && w[|w|..] == "";
  }

  lemma SplitOpen(scheme: string, w: string, tail: string)
    requires WebScheme(scheme) && Plain(w) && OpenTail(tail)
    ensures SplitUrl(Prefix(scheme, w) + tail) == SplitTail(scheme, w, tail)
  {
    if tail == "" {
      assert Prefix(scheme, w) + tail == Prefix(scheme, w);
      SplitBare(scheme, w);
    } else {
      SplitWritten(scheme, w, tail);
    }
  }

  lemma PrefixFacts(scheme: string, w: string)
    requires WebScheme(scheme) && Plain(w) && w != "" && !EndsBlank(w)
    ensures var p := Prefix(scheme, w); p != "" && Letter(p[0]) && Safe(p) && !EndsBlank(p)
  {
    var p := Prefix(scheme, w);
    assert p == scheme + "://" + w && p[|p| - 1] == w[|w| - 1];
  }

  lemma NormalizeOpen(lib: Library, scheme: string, w: string, tail: string)
    requires WebScheme(scheme) && Plain(w) && w != "" && !EndsBlank(w) && OpenTail(tail)
    requires |Prefix(scheme, w) + tail| <= MAX_URL_LENGTH
    ensures Normalize(lib, Prefix(scheme, w) + tail) == NormalizeParts(lib, SplitTail(scheme, w, PreparedTail(tail)))
  {
    PrefixFacts(scheme, w);
    PrepareOpen(Prefix(scheme, w), tail);
    PreparedTailStaysOpen(tail);
    SplitOpen(scheme, w, PreparedTail(tail));
    NormalizeIs(lib, Prefix(scheme, w) + tail);
  }

  predicate DefaultOf(scheme: string, port: string, number: nat) {
    (scheme == "http" && port == ":80" && number == 80) || (scheme == "https" && port == ":443" && number == 443)
  }

  lemma SamePort(lib: Library, scheme: string, w: string, more: string, a: Netloc, number: nat, tail: string)
    requires scheme == "http" ==> number == 80
    requires scheme == "https" ==> number == 443
    requires a.port.Absent? && lib.netloc(w) == Some(a) && lib.netloc(more) == Some(a.(port := Number(number)))
    ensures NormalizeParts(lib, SplitTail(scheme, w, tail)) == NormalizeParts(lib, SplitTail(scheme, more, tail))
  {
  }

  lemma StaysPlain(scheme: string, w: string, port: string, number: nat)
    requires DefaultOf(scheme, port, number) && Plain(w)
    ensures WebScheme(scheme) && Plain(w + port) && !EndsBlank(w + port)
  {
    assert Plain(port) && (w + port)[|w + port| - 1] == port[|port| - 1];
  }

  // A URL without a port normalises as the same URL with ":80" or ":443" written out does,
  // whatever follows the location.
  lemma DefaultPortWritten(lib: Library, scheme: string, w: string, port: string, number: nat, a: Netloc, tail: string)
    requires DefaultOf(scheme, port, number) && Plain(w) && w != "" && !EndsBlank(w) && OpenTail(tail)
    requires |Prefix(scheme, w + port) + tail| <= MAX_URL_LENGTH
    requires a.port.Absent? && lib.netloc(w) == Some(a) && lib.netloc(w + port) == Some(a.(port := Number(number)))
    ensures Normalize(lib, Prefix(scheme, w) + tail) == Normalize(lib, Prefix(scheme, w + port) + tail)
  {
    StaysPlain(scheme, w, port, number);
    NormalizeOpen(lib, scheme, w, tail);
    NormalizeOpen(lib, scheme, w + port, tail);
    SamePort(lib, scheme, w, w + port, a, number, PreparedTail(tail));
  }

  // ------------------------------------------------------------ what the normaliser reads

  ghost predicate PlainTail(p: Parts) {
    Safe(p.path) && Safe(p.query) && '#' !in p.path && '?' !in p.path && '#' !in p.query
  }

  // The parts that a split can give.
  ghost predicate Splittable(p: Parts) {
    Plain(p.netloc) && PlainTail(p)
  }

  lemma TailFacts(scheme: string, netloc: string, tail: string)
    requires Safe(tail)
    ensures var p := SplitTail(scheme, netloc, tail);
            && PlainTail(p) && |WriteTail(p.path, p.query)| <= |tail|
            && (p.path != "" ==> p.path[0] == tail[0])
  {
    var body := Before(tail, '#');
    assert body <= tail && forall i :: 0 <= i < |body| ==> body[i] == tail[i];
    var p := SplitTail(scheme, netloc, tail);
    assert forall i :: 0 <= i < |p.path| ==> p.path[i] == body[i];
    assert forall i :: 0 <= i < |p.query| ==> p.query[i] == body[|p.path| + 1 + i];
  }

  lemma NetlocFacts(rest: string)
    requires Safe(rest) && "//" <= rest
    ensures var more := rest[2..]; Plain(more[..NetlocEnd(more)]) && Safe(more[NetlocEnd(more)..])
  {
    var more := rest[2..];
    assert forall i :: 0 <= i < |more| ==> more[i] == rest[i + 2];
  }

  lemma RestFacts(scheme: string, rest: string)
    requires Safe(rest)
    ensures var p := SplitRest(scheme, rest);
            && Splittable(p)
            && (p.netloc != "" ==> 2 + |p.netloc| + |WriteTail(p.path, p.query)| <= |rest|)
  {
    if "//" <= rest {
      var more := rest[2..];
      var n := NetlocEnd(more);
      NetlocFacts(rest);
      TailFacts(scheme, more[..n], more[n..]);
      assert SplitRest(scheme, rest) == SplitTail(scheme, more[..n], more[n..]);
    } else {
      TailFacts(scheme, "", rest);
    }
  }

  lemma SplitFacts(t: string)
    requires Safe(t)
    ensures var p := SplitUrl(t);
            && Splittable(p)
            && (p.netloc != "" && p.scheme != "" ==>
                  |p.scheme| + 3 + |p.netloc| + |WriteTail(p.path, p.query)| <= |t|)
  {
    if HasScheme(t) {
      var rest := After(t, ':');
      assert forall i :: 0 <= i < |rest| ==> rest[i] == t[|Before(t, ':')| + 1 + i];
      RestFacts(AsciiLower(Before(t, ':')), rest);
    } else {
      RestFacts("", t);
    }
  }

  lemma {:induction false} StripIsShorter(s: string)
    ensures |LStrip(s)| <= |s| && |DropControls(s)| <= |s| && |Clean(s)| <= |s|
  {
    if s != "" {
      StripIsShorter(s[1..]);
    }
  }

  lemma PrepareFacts(raw: string)
    ensures Safe(Prepare(raw)) && |Prepare(raw)| <= |raw|
  {
    CleanIsSafe(DropControls(Strip(raw)));
    StripIsShorter(RStrip(raw));
    StripIsShorter(Strip(raw));
    StripIsShorter(DropControls(Strip(raw)));
  }

  function Location(u: Url): string
    requires u.origin.port >= 0
  {
    WriteNetloc(u.origin.host, u.origin.port)
  }

  // A raw URL that is covered, in its normal form.
  function Admitted(lib: Library, covers: Url -> bool, raw: string): Option<string> {
    var url := Normalize(lib, raw);
    if url.Ok? && covers(url.value) then Some(Text(url.value)) else None
  }

  // What every normalised URL satisfies.
  ghost predicate Normal(lib: Library, u: Url) {
    && WebScheme(u.origin.scheme) && u.origin.port > 0 && u.origin.host != ""
    && Rereads(lib, u.origin)
    && Canonical(u.path, lib.unquote)
    && Safe(u.path) && Safe(u.query) && '#' !in u.path && '?' !in u.path && '#' !in u.query
  }

  lemma PartsAreNormal(lib: Library, p: Parts)
    requires Splittable(p) && NormalizeParts(lib, p).Ok? && Rereads(lib, NormalizeParts(lib, p).value.origin)
    ensures Normal(lib, NormalizeParts(lib, p).value)
  {
  }

  lemma NormalizedIsNormal(lib: Library, raw: string)
    requires Normalize(lib, raw).Ok? && Rereads(lib, Normalize(lib, raw).value.origin)
    ensures Normal(lib, Normalize(lib, raw).value)
  {
    PrepareFacts(raw);
    SplitFacts(Prepare(raw));
    PartsAreNormal(lib, SplitUrl(Prepare(raw)));
  }

  // A normalised URL is longer than the raw text by at most a port and a slash.
  lemma NormalizedLength(lib: Library, raw: string)
    requires Normalize(lib, raw).Ok? && ShortLocation(lib, raw)
    ensures var u := Normalize(lib, raw).value;
            u.origin.port > 0 && |Text(u)| <= |raw| + 5
  {
    PrepareFacts(raw);
    SplitFacts(Prepare(raw));
    var p := SplitUrl(Prepare(raw));
    PartsLength(lib, p, NormalizeParts(lib, p).value);
  }

  lemma PartsLength(lib: Library, p: Parts, u: Url)
    requires NormalizeParts(lib, p) == Ok(u) && u.origin.port > 0 && |Location(u)| <= |p.netloc| + 4
    ensures |Text(u)| <= |p.scheme| + 3 + |p.netloc| + |WriteTail(p.path, p.query)| + 5
    ensures p.scheme != ""
  {
  }

  // ------------------------------------------------------------ normalising again

  function PrefixOf(u: Url): string
    requires u.origin.port >= 0
  {
    Prefix(u.origin.scheme, Location(u))
  }

  lemma TextIsWhole(lib: Library, u: Url)
    requires Normal(lib, u)
    ensures Text(u) == PrefixOf(u) + WriteTail(u.path, u.query)
    ensures Safe(PrefixOf(u)) && PrefixOf(u) != "" && Letter(PrefixOf(u)[0])
    ensures Safe(WriteTail(u.path, u.query)) && WriteTail(u.path, u.query) != "" && WriteTail(u.path, u.query)[0] == '/'
  {
    assert Safe("://" + Location(u));
  }

  lemma NormalizeIs(lib: Library, raw: string)
    requires Strip(raw) != "" && |raw| <= MAX_URL_LENGTH
    ensures Normalize(lib, raw) == NormalizeParts(lib, SplitUrl(Prepare(raw)))
  {
  }

  lemma PrepareWhole(prefix: string, tail: string)
    requires prefix != "" && Letter(prefix[0]) && Safe(prefix) && Safe(tail) && tail != "" && !Blank(tail[0])
    ensures Strip(prefix + tail) != ""
    ensures Prepare(prefix + tail) == prefix + RStrip(tail)
  {
    PrepareWritten(prefix + tail);
    StripsTheTail(prefix, tail);
  }

  // Only the end of the tail can change.
  lemma NormalizeWritten(lib: Library, u: Url)
    requires Normal(lib, u) && |Text(u)| <= MAX_URL_LENGTH
    ensures Normalize(lib, Text(u)) ==
            NormalizeParts(lib, SplitTail(u.origin.scheme, Location(u), RStrip(WriteTail(u.path, u.query))))
  {
    var tail := WriteTail(u.path, u.query);
    TextIsWhole(lib, u);
    PrepareWhole(PrefixOf(u), tail);
    NormalizeIs(lib, Text(u));
    KeepsFirst(tail);
    SplitWritten(u.origin.scheme, Location(u), RStrip(tail));
  }

  lemma PartsAgain(lib: Library, u: Url)
    requires Normal(lib, u)
    ensures NormalizeParts(lib, Parts(u.origin.scheme, Location(u), u.path, u.query, "")) == Ok(u)
  {
  }

  // A shorter tail gives a URL with a shorter text.
  lemma ShorterTail(lib: Library, u: Url, tail: string)
    requires Normal(lib, u) && Safe(tail) && tail != "" && tail[0] == '/' && |tail| < |WriteTail(u.path, u.query)|
    ensures var r := NormalizeParts(lib, SplitTail(u.origin.scheme, Location(u), tail));
            r.Ok? ==> r.value.origin == u.origin && |Text(r.value)| < |Text(u)|
  {
    TailFacts(u.origin.scheme, Location(u), tail);
    assert Before(Before(tail, '#'), '?') != "";
  }

  lemma TailAgain(lib: Library, u: Url)
    requires Normal(lib, u)
    ensures var tail := WriteTail(u.path, u.query);
            var again := NormalizeParts(lib, SplitTail(u.origin.scheme, Location(u), RStrip(tail)));
            && again != Err(TooLong)
            && (again == Ok(u) <==> !EndsBlank(tail))
            && (again.Ok? && again != Ok(u) ==> again.value.origin == u.origin && |Text(again.value)| < |Text(u)|)
  {
    var tail := WriteTail(u.path, u.query);
    TextIsWhole(lib, u);
    if EndsBlank(tail) {
      KeepsFirst(tail);
      StripShortens(tail);
      ShorterTail(lib, u, RStrip(tail));
    } else {
      SplitTailWritten(u.origin.scheme, Location(u), u.path, u.query);
      PartsAgain(lib, u);
    }
  }

  lemma StripShortens(s: string)
    requires EndsBlank(s)
    ensures |RStrip(s)| < |s| && (Safe(s) ==> Safe(RStrip(s)))
  {
    var r := RStrip(s);
    assert forall i :: 0 <= i < |r| ==> r[i] == s[i];
    assert r == s[..|r|];
  }

  lemma EndsBlankTogether(lib: Library, u: Url)
    requires Normal(lib, u)
    ensures EndsBlank(Text(u)) <==> EndsBlank(WriteTail(u.path, u.query))
  {
    TextIsWhole(lib, u);
  }

  lemma TooLongAgain(lib: Library, u: Url)
    requires Normal(lib, u) && |Text(u)| > MAX_URL_LENGTH
    ensures Normalize(lib, Text(u)) == Err(TooLong)
  {
    TextIsWhole(lib, u);
    PrepareWhole(PrefixOf(u), WriteTail(u.path, u.query));
  }

  // What normalising the text of a normalised URL gives.
  ghost predicate Again(u: Url, again: Result<Url, UrlError>)
    requires u.origin.port >= 0
  {
    && (again == Err(TooLong) <==> |Text(u)| > MAX_URL_LENGTH)
    && (|Text(u)| <= MAX_URL_LENGTH ==> (again == Ok(u) <==> !EndsBlank(Text(u))))
    && (again.Ok? && again != Ok(u) ==>
          again.value.origin == u.origin && again.value.origin.port >= 0 && |Text(again.value)| < |Text(u)|)
  }

  // Refused when the explicit port made it too long; the same URL exactly when its text
  // does not end in a blank; a URL with a shorter text, if any, otherwise.
  lemma NormalizeAgain(lib: Library, raw: string)
    requires Normalize(lib, raw).Ok? && Rereads(lib, Normalize(lib, raw).value.origin)
    ensures var u := Normalize(lib, raw).value;
            u.origin.port > 0 && Again(u, Normalize(lib, Text(u)))
  {
    var u := Normalize(lib, raw).value;
    NormalizedIsNormal(lib, raw);
    WrittenAgain(lib, u);
  }

  lemma WrittenAgain(lib: Library, u: Url)
    requires Normal(lib, u)
    ensures Again(u, Normalize(lib, Text(u)))
  {
    if |Text(u)| <= MAX_URL_LENGTH {
      NormalizeWritten(lib, u);
      EndsBlankTogether(lib, u);
      TailAgain(lib, u);
    } else {
      TooLongAgain(lib, u);
    }
  }

  // ------------------------------------------------------------ which raw texts settle

  function TailOfRest(rest: string): string {
    if "//" <= rest then
      var more := rest[2..];
      more[NetlocEnd(more)..]
    else rest
  }

  function TailOf(t: string): string {
    TailOfRest(if HasScheme(t) then After(t, ':') else t)
  }

  lemma RestHasTail(scheme: string, rest: string)
    ensures var p := SplitRest(scheme, rest); p == SplitTail(p.scheme, p.netloc, TailOfRest(rest))
    ensures TailOfRest(rest) != "" ==> EndsWith(rest, TailOfRest(rest)[|TailOfRest(rest)| - 1])
  {
    if "//" <= rest {
      var more := rest[2..];
      var n := NetlocEnd(more);
      assert SplitRest(scheme, rest) == SplitTail(scheme, more[..n], more[n..]);
      SuffixEnd(rest, more, n);
    } else {
      assert SplitRest(scheme, rest) == SplitTail(scheme, "", rest);
    }
  }

  lemma SuffixEnd(rest: string, more: string, n: nat)
    requires 2 <= |rest| && more == rest[2..] && n <= |more|
    ensures more[n..] != "" ==> EndsWith(rest, more[n..][|more[n..]| - 1])
  {
  }

  lemma SplitHasTail(t: string)
    ensures var p := SplitUrl(t); p == SplitTail(p.scheme, p.netloc, TailOf(t))
    ensures TailOf(t) != "" ==> EndsWith(t, TailOf(t)[|TailOf(t)| - 1])
  {
    if HasScheme(t) {
      var rest := After(t, ':');
      var scheme := AsciiLower(Before(t, ':'));
      assert SplitUrl(t) == SplitRest(scheme, rest) && TailOf(t) == TailOfRest(rest);
      RestHasTail(scheme, rest);
      assert rest != "" ==> EndsWith(t, rest[|rest| - 1]);
    } else {
      assert SplitUrl(t) == SplitRest("", t) && TailOf(t) == TailOfRest(t);
      RestHasTail("", t);
    }
  }

  lemma Rejoin(s: string, c: char)
    ensures s == Before(s, c) + (if After(s, c) == "" && !EndsWith(s, c) then "" else [c] + After(s, c))
  {
    var k := Find(s, c);
    if k < |s| {
      assert s == s[..k] + ([c] + s[k + 1..]);
    }
  }

  // Without an empty fragment or an empty query at its end, a tail is written as it was.
  lemma TailIsKept(scheme: string, netloc: string, tail: string)
    requires SplitTail(scheme, netloc, tail).fragment == "" && !EndsWith(tail, '#')
    ensures var p := SplitTail(scheme, netloc, tail);
            && (EndsWith(tail, '?') || WriteTail(p.path, p.query) == tail)
            && (p.query != "" ==> WriteTail(p.path, p.query) == tail)
  {
    assert Find(tail, '#') == |tail| && Before(tail, '#') == tail;
    Rejoin(tail, '?');
    TailForms(Before(tail, '?'), After(tail, '?'));
  }

  lemma TailForms(path: string, query: string)
    ensures WriteTail(path, query) == path + (if query == "" then "" else ['?'] + query)
  {
  }

  lemma {:induction false} CleanKeepsEnd(s: string)
    requires s != "" && !Unsafe(s[|s| - 1])
    ensures EndsWith(Clean(s), s[|s| - 1])
  {
    if |s| > 1 {
      CleanKeepsEnd(s[1..]);
    }
  }

  lemma {:induction false} DropKeepsEnd(s: string)
    ensures DropControls(s) != "" ==> s != "" && EndsWith(DropControls(s), s[|s| - 1])
    ensures LStrip(s) != "" ==> s != "" && EndsWith(LStrip(s), s[|s| - 1])
  {
    if s != "" {
      DropKeepsEnd(s[1..]);
    }
  }

  lemma PreparedEnd(raw: string)
    ensures !EndsBlank(Prepare(raw))
  {
    var stripped := Strip(raw);
    var dropped := DropControls(stripped);
    DropKeepsEnd(RStrip(raw));
    DropKeepsEnd(stripped);
    if dropped != "" {
      CleanKeepsEnd(dropped);
    }
  }

  lemma MarkNeeded(lib: Library, p: Parts, tail: string, u: Url)
    requires p == SplitTail(p.scheme, p.netloc, tail) && NormalizeParts(lib, p) == Ok(u)
    requires !EndsBlank(tail) && EndsBlank(WriteTail(u.path, u.query))
    ensures EndsWith(tail, '#') || (EndsWith(tail, '?') && u.query == "")
  {
    if !EndsWith(tail, '#') {
      TailIsKept(p.scheme, p.netloc, tail);
    }
  }

  // The text that the normaliser writes ends in a blank only for a raw text that ends
  // in an empty fragment or an empty query.
  lemma BlankNeedsAMark(lib: Library, raw: string)
    requires Normalize(lib, raw).Ok?
    requires var u := Normalize(lib, raw).value; EndsBlank(WriteTail(u.path, u.query))
    ensures EndsWith(Prepare(raw), '#') || (EndsWith(Prepare(raw), '?') && Normalize(lib, raw).value.query == "")
  {
    var t := Prepare(raw);
    var tail := TailOf(t);
    PreparedEnd(raw);
    SplitHasTail(t);
    assert !EndsBlank(tail);
    MarkNeeded(lib, SplitUrl(t), tail, Normalize(lib, raw).value);
  }

  lemma SecondFormOf(lib: Library, u: Url, again: Result<Url, UrlError>)
    requires Normal(lib, u) && (EndsBlank(WriteTail(u.path, u.query)) ==> u.query == "")
    requires Again(u, again)
    requires |Text(u)| <= MAX_URL_LENGTH ==>
               again == NormalizeParts(lib, SplitTail(u.origin.scheme, Location(u), RStrip(WriteTail(u.path, u.query))))
    ensures again.Ok? ==> again.value.origin == u.origin && !EndsBlank(Text(again.value))
  {
    EndsBlankTogether(lib, u);
    if EndsBlank(Text(u)) {
      assert WriteTail(u.path, u.query) == u.path;
      StrippedPath(lib, u);
    }
  }

  lemma SecondForm(lib: Library, u: Url)
    requires Normal(lib, u) && (EndsBlank(WriteTail(u.path, u.query)) ==> u.query == "")
    ensures var again := Normalize(lib, Text(u));
            again.Ok? ==> again.value.origin == u.origin && !EndsBlank(Text(again.value))
  {
    WrittenAgain(lib, u);
    if |Text(u)| <= MAX_URL_LENGTH {
      NormalizeWritten(lib, u);
    }
    SecondFormOf(lib, u, Normalize(lib, Text(u)));
  }

  // A text without an empty fragment at its end settles at the latest at its second
  // normal form.
  lemma SecondFormSettles(lib: Library, raw: string)
    requires Normalize(lib, raw).Ok? && Rereads(lib, Normalize(lib, raw).value.origin) && !EndsWith(Prepare(raw), '#')
    ensures var u := Normalize(lib, raw).value;
            u.origin.port > 0 &&
            var again := Normalize(lib, Text(u));
            again.Ok? ==> again.value.origin == u.origin && !EndsBlank(Text(again.value))
  {
    var u := Normalize(lib, raw).value;
    NormalizedIsNormal(lib, raw);
    if EndsBlank(WriteTail(u.path, u.query)) {
      BlankNeedsAMark(lib, raw);
    }
    SecondForm(lib, u);
  }

  lemma StrippedPath(lib: Library, u: Url)
    requires Normal(lib, u) && u.query == ""
    ensures var r := NormalizeParts(lib, SplitTail(u.origin.scheme, Location(u), RStrip(u.path)));
            r.Ok? ==> r.value.origin == u.origin && !EndsBlank(Text(r.value))
  {
    var path := RStrip(u.path);
    KeepsFirst(u.path);
    assert forall i :: 0 <= i < |path| ==> path[i] == u.path[i];
    SplitTailWritten(u.origin.scheme, Location(u), path, "");
    assert WriteTail(path, "") == path;
  }

  // ------------------------------------------------------------ normalising a third time

  // The second form is normal again, and ends in a blank only without a query.
  lemma AgainIsNormal(lib: Library, u: Url, u1: Url)
    requires Normal(lib, u) && Normalize(lib, Text(u)) == Ok(u1)
    ensures Normal(lib, u1) && u1.origin == u.origin && |Text(u)| <= MAX_URL_LENGTH
    ensures EndsBlank(WriteTail(u1.path, u1.query)) ==> u1.query == ""
  {
    var tail := RStrip(WriteTail(u.path, u.query));
    var p := SplitTail(u.origin.scheme, Location(u), tail);
    WrittenAgain(lib, u);
    NormalizeWritten(lib, u);
    StrippedIsPlain(lib, u);
    StrippedParts(lib, u, p, tail);
    PartsAreNormal(lib, p);
  }

  lemma StrippedParts(lib: Library, u: Url, p: Parts, tail: string)
    requires Normal(lib, u) && Safe(tail) && '#' !in tail && !EndsBlank(tail)
    requires p == SplitTail(u.origin.scheme, Location(u), tail) && p.fragment == "" && p.path != ""
    ensures Splittable(p) && (EndsBlank(WriteTail(p.path, p.query)) ==> p.query == "")
    ensures NormalizeParts(lib, p).Ok? ==> NormalizeParts(lib, p).value == Url(u.origin, p.path, p.query)
  {
    TailFacts(u.origin.scheme, Location(u), tail);
    assert !EndsWith(tail, '#');
    TailIsKept(u.origin.scheme, Location(u), tail);
    SameOriginParts(lib, u, p);
  }

  lemma SameOriginParts(lib: Library, u: Url, p: Parts)
    requires Normal(lib, u) && p.scheme == u.origin.scheme && p.netloc == Location(u) && p.path != ""
    ensures NormalizeParts(lib, p).Ok? ==> NormalizeParts(lib, p).value == Url(u.origin, p.path, p.query)
  {
  }

  lemma StrippedIsPlain(lib: Library, u: Url)
    requires Normal(lib, u)
    ensures var tail := RStrip(WriteTail(u.path, u.query));
            && Safe(tail) && '#' !in tail && tail != "" && tail[0] == '/' && !EndsBlank(tail)
            && SplitTail(u.origin.scheme, Location(u), tail).fragment == ""
            && SplitTail(u.origin.scheme, Location(u), tail).path != ""
  {
    var whole := WriteTail(u.path, u.query);
    var tail := RStrip(whole);
    TextIsWhole(lib, u);
    KeepsFirst(whole);
    assert forall i :: 0 <= i < |tail| ==> tail[i] == whole[i];
    assert '#' !in tail;
    SplitAt(tail, '#', "");
    assert Before(tail, '?') != "";
  }

  // Normalising for the third time gives the third form back from then on.
  lemma ThirdForm(lib: Library, u: Url, u1: Url, u2: Url)
    requires Normal(lib, u) && Normalize(lib, Text(u)) == Ok(u1)
    requires u1.origin.port >= 0 && Normalize(lib, Text(u1)) == Ok(u2)
    ensures Normal(lib, u2) && u2.origin == u.origin && Normalize(lib, Text(u2)) == Ok(u2)
  {
    AgainIsNormal(lib, u, u1);
    AgainIsNormal(lib, u1, u2);
    SecondForm(lib, u1);
    WrittenAgain(lib, u1);
    WrittenAgain(lib, u2);
  }

  lemma {:induction false} RStripAppend(a: string, b: string)
    ensures RStrip(a + b) == if RStrip(b) == "" then RStrip(a) else a + RStrip(b)
  {
    if b == "" {
      assert a + b == a;
    } else if EndsBlank(b) {
      var front := b[..|b| - 1];
      assert (a + b)[..|a + b| - 1] == a + front;
      RStripAppend(a, front);
    }
  }

  // A path and a query that end in blanks, the query of nothing else: the two further
  // normal forms drop the query and then the blanks of the path.
  predicate TwiceBlank(u: Url) {
    u.query != "" && RStrip(u.query) == "" && EndsBlank(u.path)
  }

  function WithoutQuery(u: Url): Url {
    u.(query := "")
  }

  function Shortened(u: Url): Url {
    u.(path := RStrip(u.path), query := "")
  }

  lemma TwiceBlankForms(lib: Library, u: Url)
    requires Normal(lib, u) && TwiceBlank(u) && |Text(u)| <= MAX_URL_LENGTH
    ensures Normal(lib, WithoutQuery(u)) && Normalize(lib, Text(u)) == Ok(WithoutQuery(u))
    ensures Normalize(lib, Text(WithoutQuery(u))) ==
            if Canonical(RStrip(u.path), lib.unquote) then Ok(Shortened(u)) else Err(BadPath)
    ensures Text(Shortened(u)) != Text(WithoutQuery(u)) && Text(WithoutQuery(u)) != Text(u) && Text(Shortened(u)) != Text(u)
  {
    var u1 := WithoutQuery(u);
    BlankQueryDropped(lib, u);
    BlankPathDropped(lib, u1);
    assert |Text(u1)| < |Text(u)|;
  }

  lemma BlankQueryDropped(lib: Library, u: Url)
    requires Normal(lib, u) && u.query != "" && RStrip(u.query) == "" && |Text(u)| <= MAX_URL_LENGTH
    ensures Normal(lib, WithoutQuery(u)) && Normalize(lib, Text(u)) == Ok(WithoutQuery(u))
  {
    NormalizeWritten(lib, u);
    BlankQueryTail(u.path, u.query);
    EmptyQuery(u.origin.scheme, Location(u), u.path);
    PartsAgain(lib, WithoutQuery(u));
  }

  lemma BlankQueryTail(path: string, query: string)
    requires query != "" && RStrip(query) == ""
    ensures RStrip(WriteTail(path, query)) == path + ['?']
  {
    var marked := path + ['?'];
    assert WriteTail(path, query) == marked + query;
    RStripAppend(marked, query);
  }

  lemma BlankPathDropped(lib: Library, u: Url)
    requires Normal(lib, u) && u.query == "" && EndsBlank(u.path) && |Text(u)| <= MAX_URL_LENGTH
    ensures Normalize(lib, Text(u)) == if Canonical(RStrip(u.path), lib.unquote) then Ok(Shortened(u)) else Err(BadPath)
    ensures |Text(Shortened(u))| < |Text(u)|
  {
    var path := RStrip(u.path);
    NormalizeWritten(lib, u);
    BlankPathTail(u.path);
    PlainPath(u.origin.scheme, Location(u), path);
  }

  lemma BlankPathTail(path: string)
    requires path != "" && path[0] == '/' && EndsBlank(path)
    ensures WriteTail(path, "") == path && WriteTail(RStrip(path), "") == RStrip(path)
    ensures RStrip(path) != "" && |RStrip(path)| < |path|
    ensures '#' !in path ==> '#' !in RStrip(path)
    ensures '?' !in path ==> '?' !in RStrip(path)
  {
    var short := RStrip(path);
    KeepsFirst(path);
    StripShortens(path);
    assert forall i :: 0 <= i < |short| ==> short[i] == path[i];
  }

  // Two further normal forms that differ come from such a URL only.
  lemma OnlyTwiceBlank(lib: Library, u: Url, u1: Url, u2: Url)
    requires Normal(lib, u) && Normalize(lib, Text(u)) == Ok(u1)
    requires u1.origin.port >= 0 && Normalize(lib, Text(u1)) == Ok(u2) && u1 != u2
    ensures TwiceBlank(u)
  {
    AgainIsNormal(lib, u, u1);
    ChangeNeedsBlank(lib, u1, u2);
    if u.query == "" {
      NoQueryNoBlank(lib, u, u1);
    } else {
      QueryAgain(lib, u, u1);
    }
  }

  lemma ChangeNeedsBlank(lib: Library, u: Url, u1: Url)
    requires Normal(lib, u) && Normalize(lib, Text(u)) == Ok(u1) && u1 != u
    ensures EndsBlank(WriteTail(u.path, u.query))
  {
    WrittenAgain(lib, u);
    EndsBlankTogether(lib, u);
  }

  lemma NoQueryNoBlank(lib: Library, u: Url, u1: Url)
    requires Normal(lib, u) && u.query == "" && Normalize(lib, Text(u)) == Ok(u1)
    ensures !EndsBlank(WriteTail(u1.path, u1.query))
  {
    SecondForm(lib, u);
    AgainIsNormal(lib, u, u1);
    EndsBlankTogether(lib, u1);
  }

  lemma QueryAgain(lib: Library, u: Url, u1: Url)
    requires Normal(lib, u) && u.query != "" && Normalize(lib, Text(u)) == Ok(u1) && |Text(u)| <= MAX_URL_LENGTH
    ensures u1 == u.(query := RStrip(u.query))
  {
    if RStrip(u.query) == "" {
      BlankQueryDropped(lib, u);
    } else {
      QueryStripped(lib, u);
    }
  }

  lemma QueryStripped(lib: Library, u: Url)
    requires Normal(lib, u) && RStrip(u.query) != "" && |Text(u)| <= MAX_URL_LENGTH
    ensures Normalize(lib, Text(u)) == Ok(u.(query := RStrip(u.query)))
  {
    var stripped := u.(query := RStrip(u.query));
    NormalizeWritten(lib, u);
    QueryTailStripped(u.path, u.query);
    assert forall i :: 0 <= i < |stripped.query| ==> stripped.query[i] == u.query[i];
    SplitTailWritten(u.origin.scheme, Location(u), u.path, stripped.query);
    PartsAgain(lib, stripped);
  }

  lemma QueryTailStripped(path: string, query: string)
    requires RStrip(query) != ""
    ensures RStrip(WriteTail(path, query)) == WriteTail(path, RStrip(query))
  {
    var marked := path + ['?'];
    assert WriteTail(path, query) == marked + query && WriteTail(path, RStrip(query)) == marked + RStrip(query);
    RStripAppend(marked, query);
  }

  lemma PlainPath(scheme: string, netloc: string, path: string)
    requires '#' !in path && '?' !in path
    ensures SplitTail(scheme, netloc, path) == Parts(scheme, netloc, path, "", "")
  {
    SplitAt(path, '#', "");
    SplitAt(path, '?', "");
  }

  lemma EmptyQuery(scheme: string, netloc: string, path: string)
    requires '#' !in path && '?' !in path
    ensures SplitTail(scheme, netloc, path + ['?']) == Parts(scheme, netloc, path, "", "")
  {
    SplitAt(path + ['?'], '#', "");
    SplitAt(path, '?', "");
    assert path + ['?'] + "" == path + ['?'];
  }

  lemma MarkedTail(scheme: string, netloc: string, path: string, query: string, fragment: string)
    requires '#' !in path && '?' !in path && '#' !in query
    ensures SplitTail(scheme, netloc, (WriteTail(path, query) + ['#']) + fragment) == Parts(scheme, netloc, path, query, fragment)
  {
    SplitAt(WriteTail(path, query), '#', fragment);
    SplitTailWritten(scheme, netloc, path, query);
  }

  function Marked(u: Url, blanks: string): string
    requires u.origin.port >= 0
  {
    Text(u) + (['#'] + blanks)
  }

  // A normal form with a fragment of blanks behind it normalises to itself.
  lemma BlankFragmentIsDropped(lib: Library, u: Url, blanks: string)
    requires Normal(lib, u) && |Marked(u, blanks)| <= MAX_URL_LENGTH && RStrip(blanks) == "" && Safe(blanks)
    ensures Normalize(lib, Marked(u, blanks)) == Ok(u)
  {
    var marked := WriteTail(u.path, u.query) + ['#'];
    MarkedIsPrepared(lib, u, blanks);
    NormalizeIs(lib, Marked(u, blanks));
    SplitWritten(u.origin.scheme, Location(u), marked);
    MarkedTail(u.origin.scheme, Location(u), u.path, u.query, "");
    assert marked + "" == marked;
    PartsAgain(lib, u);
  }

  lemma MarkedIsPrepared(lib: Library, u: Url, blanks: string)
    requires Normal(lib, u) && RStrip(blanks) == "" && Safe(blanks)
    ensures Strip(Marked(u, blanks)) != ""
    ensures Prepare(Marked(u, blanks)) == PrefixOf(u) + (WriteTail(u.path, u.query) + ['#'])
  {
    TextIsWhole(lib, u);
    Regroup(PrefixOf(u), WriteTail(u.path, u.query), ['#'], blanks);
    MarkIsPrepared(PrefixOf(u), WriteTail(u.path, u.query), blanks);
  }

  lemma Regroup(a: string, b: string, c: string, d: string)
    ensures (a + b) + (c + d) == a + ((b + c) + d)
  {
  }

  lemma MarkIsPrepared(prefix: string, tail: string, blanks: string)
    requires prefix != "" && Letter(prefix[0]) && Safe(prefix) && Safe(tail) && tail != "" && tail[0] == '/'
    requires RStrip(blanks) == "" && Safe(blanks)
    ensures var text := prefix + ((tail + ['#']) + blanks);
            Strip(text) != "" && Prepare(text) == prefix + (tail + ['#'])
  {
    var marked := tail + ['#'];
    PrepareWhole(prefix, marked + blanks);
    RStripAppend(marked, blanks);
  }

  // ------------------------------------------------------------ an example library

  function SampleNetloc(n: string): Option<Netloc> {
    if n == "h" then Some(Netloc("h", Absent, false))
    else if n == "h:80" then Some(Netloc("h", Number(80), false))
    else None
  }

  const SAMPLE := Library(SampleNetloc, (s: string) => s)

  lemma LastDigit(n: nat, front: string)
    requires n >= 10 && Decimal(n / 10) == front
    ensures Decimal(n) == front + [(n % 10 + '0' as int) as char]
  {
  }

  lemma SampleLocation()
    ensures WriteNetloc("h", 80) == "h:80" && Plain("h") && Plain("h:80")
  {
    LastDigit(80, "8");
  }

  function SampleUrl(path: string, query: string): Url {
    Url(Origin("http", "h", 80), path, query)
  }

  lemma {:induction false} OneSegment(s: string)
    requires '/' !in s
    ensures Segments(s) == [s]
  {
    if s != "" {
      OneSegment(s[1..]);
      assert s == [s[0]] + s[1..];
    }
  }

  predicate Plainly(name: string) {
    forall i :: 0 <= i < |name| ==> Letter(name[i]) || name[i] == ' '
  }

  // A path of one segment of letters and blanks.
  lemma SamplePath(name: string)
    requires Plainly(name)
    ensures Canonical("/" + name, SAMPLE.unquote) && Safe("/" + name)
    ensures '#' !in "/" + name && '?' !in "/" + name
  {
    var path := ['/'] + name;
    assert path == "/" + name;
    assert forall i :: 0 < i < |path| ==> path[i] == name[i - 1];
    OneSegment(name);
    assert path[1..] == name;
    assert Segments(path) == [""] + [name];
    assert name != "." && name != ".." by {
      assert !Letter('.') && !Plainly(".") && !Plainly("..") by {
        assert "."[0] == '.' && ".."[0] == '.';
      }
    }
  }

  lemma SampleIsNormal(name: string)
    requires Plainly(name)
    ensures Normal(SAMPLE, SampleUrl("/" + name, ""))
    ensures |Text(SampleUrl("/" + name, ""))| == 12 + |name|
  {
    SamplePath(name);
    SampleLocation();
  }

  lemma SampleParts(name: string, query: string, w: string)
    requires Plainly(name)
    requires w == "h" || w == "h:80"
    ensures NormalizeParts(SAMPLE, Parts("http", w, "/" + name, query, "")) == Ok(SampleUrl("/" + name, query))
  {
    SamplePath(name);
  }

  lemma SampleRaw(tail: string)
    requires tail != "" && tail[0] == '/' && Safe(tail) && !EndsBlank(tail) && 8 + |tail| <= MAX_URL_LENGTH
    ensures |Prefix("http", "h") + tail| == 8 + |tail|
    ensures Normalize(SAMPLE, Prefix("http", "h") + tail) == NormalizeParts(SAMPLE, SplitTail("http", "h", tail))
  {
    var prefix := Prefix("http", "h");
    assert Safe(prefix) && Letter(prefix[0]);
    PrepareWhole(prefix, tail);
    NormalizeIs(SAMPLE, prefix + tail);
    SampleLocation();
    SplitWritten("http", "h", tail);
  }

  // A URL of the greatest length that leaves its port out: its normal form is refused.
  lemma NormalizingTwiceCanFail()
    ensures exists raw: string ::
              && |raw| == MAX_URL_LENGTH && Normalize(SAMPLE, raw).Ok?
              && Normalize(SAMPLE, Text(Normalize(SAMPLE, raw).value)) == Err(TooLong)
  {
    var name := seq(MAX_URL_LENGTH - 9, _ => 'a');
    var tail := "/" + name;
    var raw := Prefix("http", "h") + tail;
    SamplePath(name);
    SampleRaw(tail);
    assert WriteTail(tail, "") == tail;
    SplitTailWritten("http", "h", tail, "");
    SampleParts(name, "", "h");
    var u := SampleUrl(tail, "");
    SampleLocation();
    assert |Text(u)| == MAX_URL_LENGTH + 3;
    NormalizeAgain(SAMPLE, raw);
  }
}
