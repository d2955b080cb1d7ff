/**
 The relay's response as a JSON document (section 7 of RFC 8259), and why it
 always fits the limit under which the worker reads it.
 */
module RelayEnvelope {
  import opened Prelude
  import opened Utf8
  import opened RelayProtocol
  import opened RelayHeaders
  import Base64
  import PrefixCodes

  const MAX_ADDRESS := 45

  // What normalising can add to a URL: a default port and a slash.
  const MAX_GROWTH := 5

  // ------------------------------------------------------------ JSON text

  function Hex(v: nat): Byte
    requires v < 16
  {
    if v < 10 then 48 + v else 87 + v
  }

  // One character of a JSON string, without escaping what is not ASCII.
  function JsonChar(c: char): (b: seq<Byte>)
    ensures 1 <= |b| <= 6 && |b| <= 6 * |EncodeChar(c)|
  {
    var x := c as int;
    if c == '\"' then [92, 34]
    else if c == '\\' then [92, 92]
    else if x == 8 then [92, 98]
    else if x == 12 then [92, 102]
    else if x == 10 then [92, 110]
    else if x == 13 then [92, 114]
    else if x == 9 then [92, 116]
    else if x < 32 then [92, 117, 48, 48, Hex(x / 16), Hex(x % 16)]
    else EncodeChar(c)
  }

  function Quote(s: string): seq<Byte> {
    [34] + PrefixCodes.Encode(JsonChar, s) + [34]
  }

  function Join(items: seq<seq<Byte>>): seq<Byte> {
    if items == [] then []
    else if |items| == 1 then items[0]
    else items[0] + [44] + Join(items[1..])
  }

  // The bytes of a name made of ASCII letters and underscores.
  function Ascii(name: string): (b: seq<Byte>)
    ensures |b| == |name|
  {
    seq(|name|, i requires 0 <= i < |name| => name[i] as int % 128)
  }

  function Field(name: string, value: seq<Byte>): (b: seq<Byte>)
    ensures |b| == |name| + 3 + |value|
  {
    [34] + Ascii(name) + [34, 58] + value
  }

  function Object(members: seq<seq<Byte>>): seq<Byte> {
    [123] + Join(members) + [125]
  }

  function Array(items: seq<seq<Byte>>): seq<Byte> {
    [91] + Join(items) + [93]
  }

  function Bool(b: bool): seq<Byte> {
    if b then [116, 114, 117, 101] else [102, 97, 108, 115, 101]
  }

  function StatusDigits(n: nat): seq<Byte>
    requires n < 1000
  {
    if n < 10 then [48 + n]
    else if n < 100 then [48 + n / 10, 48 + n % 10]
    else [48 + n / 100, 48 + n / 10 % 10, 48 + n % 10]
  }

  // ------------------------------------------------------------ the response

  datatype SameSite = Lax | NoRestriction | Strict

  datatype Cookie = Cookie(httpOnly: bool, secure: bool, sameSite: Option<SameSite>)

  datatype Envelope = Envelope(
    url: string, status: nat, headers: seq<Header>, bodyBase64: string,
    redirects: seq<string>, cookies: seq<Cookie>, address: string)

  function SameSiteValue(s: Option<SameSite>): seq<Byte> {
    match s
    case None => [110, 117, 108, 108]
    case Some(Lax) => Quote("Lax")
    case Some(NoRestriction) => Quote("None")
    case Some(Strict) => Quote("Strict")
  }

  function RenderCookie(c: Cookie): seq<Byte> {
    Object([Field("http_only", Bool(c.httpOnly)), Field("secure", Bool(c.secure)),
            Field("same_site", SameSiteValue(c.sameSite))])
  }

  function RenderHeader(h: Header): seq<Byte> {
    Quote(h.name) + [58] + Quote(h.value)
  }

  function Map<A, B>(s: seq<A>, f: A -> B): (r: seq<B>)
    ensures |r| == |s|
  {
    if s == [] then [] else [f(s[0])] + Map(s[1..], f)
  }

  function RenderHeaders(headers: seq<Header>): seq<Byte> {
    Object(Map(headers, RenderHeader))
  }

  function RenderUrls(urls: seq<string>): seq<Byte> {
    Array(Map(urls, Quote))
  }

  function RenderCookies(cookies: seq<Cookie>): seq<Byte> {
    Array(Map(cookies, RenderCookie))
  }

  function Render(e: Envelope): seq<Byte>
    requires e.status < 1000
  {
    Object([Field("url", Quote(e.url)),
            Field("status_code", StatusDigits(e.status)),
            Field("headers", RenderHeaders(e.headers)),
            Field("body_base64", Quote(e.bodyBase64)),
            Field("redirect_chain", RenderUrls(e.redirects)),
            Field("cookie_security", RenderCookies(e.cookies)),
            Field("connection_ip", Quote(e.address))])
  }

  function EnvelopeLimit(bodyLimit: nat, maxRedirects: int): nat {
    var redirects: nat := Min(Max(maxRedirects, 0), MAX_REDIRECTS);
    bodyLimit * 4 + MAX_HEADER_BYTES * 6 + MAX_URL_LENGTH * (redirects + 1) * 6 + MAX_COOKIES * 256 + 8192
  }

  // ------------------------------------------------------------ sizes

  lemma {:induction false} EscapedSize(s: string)
    ensures |PrefixCodes.Encode(JsonChar, s)| <= 6 * |s|
    ensures |PrefixCodes.Encode(JsonChar, s)| <= 6 * |Utf8.Encode(s)|
  {
    if s != "" {
      EscapedSize(s[1..]);
    }
  }

  lemma QuoteSize(s: string)
    ensures |Quote(s)| <= 6 * |s| + 2
    ensures |Quote(s)| <= 6 * |Utf8.Encode(s)| + 2
  {
    EscapedSize(s);
  }

  lemma OneMoreItem(each: int, n: int)
    ensures (each + 1) * (n + 1) == (each + 1) * n + each + 1
  {
  }

  lemma {:induction false} JoinSize(items: seq<seq<Byte>>, each: nat)
    requires forall i :: i in items ==> |i| <= each
    ensures |Join(items)| <= (each + 1) * |items|
  {
    if |items| > 1 {
      JoinSize(items[1..], each);
      OneMoreItem(each, |items[1..]|);
    } else if |items| == 1 {
      assert items[0] in items;
    }
  }

  lemma {:induction false} MapHas<A, B>(s: seq<A>, f: A -> B, b: B)
    requires b in Map(s, f)
    ensures exists a :: a in s && f(a) == b
  {
    if b != f(s[0]) {
      MapHas(s[1..], f, b);
    }
  }

  lemma {:induction false} HeadersSize(headers: seq<Header>)
    ensures |Join(Map(headers, RenderHeader))| <= 6 * TotalBytes(headers) + 6 * |headers|
  {
    if headers != [] {
      var rest := headers[1..];
      HeadersSize(rest);
      QuoteSize(headers[0].name);
      QuoteSize(headers[0].value);
      assert headers == [headers[0]] + rest;
      TotalBytesConcat([headers[0]], rest);
      assert TotalBytes([headers[0]]) == HeaderBytes(headers[0]);
      assert Map(headers, RenderHeader)[1..] == Map(rest, RenderHeader);
    }
  }

  lemma UrlsSize(urls: seq<string>)
    requires forall u :: u in urls ==> |u| <= MAX_URL_LENGTH
    ensures |RenderUrls(urls)| <= (6 * MAX_URL_LENGTH + 3) * |urls| + 2
  {
    var items := Map(urls, Quote);
    forall i | i in items
      ensures |i| <= 6 * MAX_URL_LENGTH + 2
    {
      MapHas(urls, Quote, i);
      var u :| u in urls && Quote(u) == i;
      QuoteSize(u);
    }
    JoinSize(items, 6 * MAX_URL_LENGTH + 2);
  }

  lemma JoinThree(a: seq<Byte>, b: seq<Byte>, c: seq<Byte>)
    ensures |Join([a, b, c])| == |a| + |b| + |c| + 2
  {
    assert [a, b, c][1..] == [b, c] && [b, c][1..] == [c];
    assert Join([b, c]) == b + [44] + Join([c]);
  }

  lemma SameSiteSize(s: Option<SameSite>)
    ensures |SameSiteValue(s)| <= 38
  {
    if s.Some? {
      QuoteSize("Lax");
      QuoteSize("None");
      QuoteSize("Strict");
    }
  }

  lemma CookieSize(c: Cookie)
    ensures |RenderCookie(c)| <= 255
  {
    var first, second, third := Bool(c.httpOnly), Bool(c.secure), SameSiteValue(c.sameSite);
    SameSiteSize(c.sameSite);
    JoinThree(Field("http_only", first), Field("secure", second), Field("same_site", third));
  }

  lemma CookiesSize(cookies: seq<Cookie>)
    ensures |RenderCookies(cookies)| <= 256 * |cookies| + 2
  {
    var items := Map(cookies, RenderCookie);
    forall i | i in items
      ensures |i| <= 255
    {
      MapHas(cookies, RenderCookie, i);
      var c :| c in cookies && RenderCookie(c) == i;
      CookieSize(c);
    }
    JoinSize(items, 255);
  }

  lemma JoinTail(a: seq<Byte>, rest: seq<seq<Byte>>)
    requires rest != []
    ensures |Join([a] + rest)| == |a| + 1 + |Join(rest)|
  {
    assert ([a] + rest)[1..] == rest;
  }

  lemma JoinSeven(a: seq<Byte>, b: seq<Byte>, c: seq<Byte>, d: seq<Byte>, e: seq<Byte>, f: seq<Byte>, g: seq<Byte>)
    ensures |Join([a, b, c, d, e, f, g])| == |a| + |b| + |c| + |d| + |e| + |f| + |g| + 6
  {
    JoinThree(e, f, g);
    JoinTail(d, [e, f, g]);
    JoinTail(c, [d, e, f, g]);
    JoinTail(b, [c, d, e, f, g]);
    JoinTail(a, [b, c, d, e, f, g]);
    assert [a, b, c, d, e, f, g] == [a] + [b, c, d, e, f, g];
    assert [b, c, d, e, f, g] == [b] + [c, d, e, f, g];
    assert [c, d, e, f, g] == [c] + [d, e, f, g];
    assert [d, e, f, g] == [d] + [e, f, g];
  }

  // A digit of a Base64 text is never escaped.
  lemma PlainDigit(a: Base64.Alphabet, m: Base64.Mark)
    requires !m.Junk?
    ensures |JsonChar(Base64.Write(a, m))| == 1
  {
  }

  ghost predicate Plain(s: string) {
    forall i :: 0 <= i < |s| ==> |JsonChar(s[i])| == 1
  }

  lemma {:induction false} PlainSize(s: string)
    requires Plain(s)
    ensures |Quote(s)| == |s| + 2
  {
    if s != "" {
      PlainSize(s[1..]);
    }
  }

  lemma Base64IsPlain(a: Base64.Alphabet, b: seq<Byte>)
    ensures Plain(Base64.Encode(a, b))
  {
    var marks := Base64.Padded(b);
    forall i | 0 <= i < |marks|
      ensures |JsonChar(Base64.Encode(a, b)[i])| == 1
    {
      PlainDigit(a, marks[i]);
    }
  }

  // What the relay puts into a response, apart from the body. The URL that answered may
  // have become longer when its port was written out.
  ghost predicate WithinCaps(e: Envelope, maxRedirects: int) {
    && e.status < 1000
    && |e.url| <= MAX_URL_LENGTH + MAX_GROWTH
    && |e.headers| <= MAX_HEADERS && TotalBytes(e.headers) <= MAX_HEADER_BYTES
    && |e.redirects| <= maxRedirects && (forall u :: u in e.redirects ==> |u| <= MAX_URL_LENGTH)
    && |e.cookies| <= MAX_COOKIES
    && |e.address| <= MAX_ADDRESS
  }

  lemma FixedPartSize(e: Envelope)
    requires e.status < 1000
    ensures |Render(e)| <= |Quote(e.url)| + |RenderHeaders(e.headers)| + |Quote(e.bodyBase64)|
                           + |RenderUrls(e.redirects)| + |RenderCookies(e.cookies)| + |Quote(e.address)| + 500
  {
    JoinSeven(Field("url", Quote(e.url)), Field("status_code", StatusDigits(e.status)),
              Field("headers", RenderHeaders(e.headers)), Field("body_base64", Quote(e.bodyBase64)),
              Field("redirect_chain", RenderUrls(e.redirects)),
              Field("cookie_security", RenderCookies(e.cookies)), Field("connection_ip", Quote(e.address)));
  }

  lemma Budget(url: nat, headers: nat, body: nat, redirects: nat, cookies: nat, address: nat,
               urls: nat, bodyLimit: nat, maxRedirects: int)
    requires 0 <= urls <= maxRedirects <= MAX_REDIRECTS
    requires url <= 6 * (MAX_URL_LENGTH + MAX_GROWTH) + 2 && headers <= 6 * MAX_HEADER_BYTES + 302 && body <= 4 * bodyLimit + 2
    requires redirects <= (6 * MAX_URL_LENGTH + 3) * urls + 2
    requires cookies <= 256 * MAX_COOKIES + 2 && address <= 272
    ensures url + headers + body + redirects + cookies + address + 500 <= EnvelopeLimit(bodyLimit, maxRedirects)
  {
    assert (6 * MAX_URL_LENGTH + 3) * urls <= 6 * MAX_URL_LENGTH * maxRedirects + 30;
  }

  lemma PartsFit(e: Envelope, maxRedirects: int)
    requires WithinCaps(e, maxRedirects)
    ensures |Quote(e.url)| <= 6 * (MAX_URL_LENGTH + MAX_GROWTH) + 2
    ensures |RenderHeaders(e.headers)| <= 6 * MAX_HEADER_BYTES + 302
    ensures |RenderUrls(e.redirects)| <= (6 * MAX_URL_LENGTH + 3) * |e.redirects| + 2
    ensures |RenderCookies(e.cookies)| <= 256 * MAX_COOKIES + 2
    ensures |Quote(e.address)| <= 272
  {
    QuoteSize(e.url);
    QuoteSize(e.address);
    HeadersSize(e.headers);
    UrlsSize(e.redirects);
    CookiesSize(e.cookies);
  }

  // Every response that respects the caps renders within the limit of a worker whose
  // body limit is that of the body in it.
  lemma EnvelopeFits(e: Envelope, body: seq<Byte>, bodyLimit: nat, maxRedirects: int)
    requires 0 <= maxRedirects <= MAX_REDIRECTS && WithinCaps(e, maxRedirects)
    requires e.bodyBase64 == Base64.Encode(Base64.Standard, body) && |e.bodyBase64| <= 4 * bodyLimit
    ensures |Render(e)| <= EnvelopeLimit(bodyLimit, maxRedirects)
  {
    Base64IsPlain(Base64.Standard, body);
    PlainSize(e.bodyBase64);
    PartsFit(e, maxRedirects);
    FixedPartSize(e);
    Budget(|Quote(e.url)|, |RenderHeaders(e.headers)|, |Quote(e.bodyBase64)|, |RenderUrls(e.redirects)|,
           |RenderCookies(e.cookies)|, |Quote(e.address)|, |e.redirects|, bodyLimit, maxRedirects);
  }

  // The worker reads one byte more than the limit, so it gets the whole document
  // and never rejects it for its size.
  method ReadEnvelope(chunks: seq<seq<Byte>>, bodyLimit: nat, maxRedirects: int)
    returns (r: Option<seq<Byte>>)
    ensures r == if |Flatten(chunks)| <= EnvelopeLimit(bodyLimit, maxRedirects) then Some(Flatten(chunks)) else None
  {
    var limit := EnvelopeLimit(bodyLimit, maxRedirects);
    var bytes := ReadLimitedBody(chunks, limit + 1);
    if |bytes| > limit {
      return None;
    }
    assert |Flatten(chunks)| <= limit ==> Cut(Flatten(chunks), limit + 1) == Flatten(chunks);
    return Some(bytes);
  }
}
