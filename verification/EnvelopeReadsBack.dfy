/**
 The relay's JSON document determines the response in it: every part of the document is
 written so that it can be told from whatever follows it.
 */
module EnvelopeReadsBack {
  import opened Prelude
  import opened Utf8
  import opened RelayHeaders
  import opened RelayEnvelope
  import PrefixCodes

  // What a value is written as never runs on into what another is written as.
  ghost predicate Separable<T(!new)>(f: T -> seq<Byte>) {
    forall x, y, r, s :: Apart(f, x, y, r, s)
  }

  predicate Apart<T(==)>(f: T -> seq<Byte>, x: T, y: T, r: seq<Byte>, s: seq<Byte>) {
    f(x) + r == f(y) + s ==> x == y
  }

  lemma Cancel(a: seq<Byte>, r: seq<Byte>, s: seq<Byte>)
    requires a + r == a + s
    ensures r == s
  {
    assert (a + r)[|a|..] == r && (a + s)[|a|..] == s;
  }

  lemma Regroup(a: seq<Byte>, b: seq<Byte>, c: seq<Byte>, r: seq<Byte>)
    ensures (a + b + c) + r == a + (b + (c + r))
  {
  }

  // ------------------------------------------------------------ strings

  predicate Escaped(c: char) {
    c == '\"' || c == '\\' || c as int < 32
  }

  lemma PlainStart(c: char)
    requires !Escaped(c)
    ensures JsonChar(c) == EncodeChar(c) && EncodeChar(c)[0] != 92 && EncodeChar(c)[0] != 34
  {
  }

  lemma EscapedStart(c: char)
    requires Escaped(c)
    ensures |JsonChar(c)| >= 2 && JsonChar(c)[0] == 92
  {
  }

  lemma EscapedApart(c: char, d: char, r: seq<Byte>, s: seq<Byte>)
    requires Escaped(c) && Escaped(d) && JsonChar(c) + r == JsonChar(d) + s
    ensures c == d
  {
    var a, b := JsonChar(c), JsonChar(d);
    assert a[1] == (a + r)[1] == (b + s)[1] == b[1];
    if |a| == 6 && |b| == 6 {
      assert a[4] == (a + r)[4] == (b + s)[4] == b[4];
      assert a[5] == (a + r)[5] == (b + s)[5] == b[5];
    }
  }

  lemma CharsApart(c: char, d: char, r: seq<Byte>, s: seq<Byte>)
    requires JsonChar(c) + r == JsonChar(d) + s
    ensures c == d
  {
    assert JsonChar(c)[0] == (JsonChar(c) + r)[0] == (JsonChar(d) + s)[0] == JsonChar(d)[0];
    if Escaped(c) && Escaped(d) {
      EscapedApart(c, d, r, s);
    } else if Escaped(c) {
      EscapedStart(c);
      PlainStart(d);
    } else if Escaped(d) {
      PlainStart(c);
      EscapedStart(d);
    } else {
      PlainStart(c);
      PlainStart(d);
      TakeEncoded(c, r);
      TakeEncoded(d, s);
    }
  }

  lemma NeverQuote(c: char)
    ensures JsonChar(c)[0] != 34
  {
    if Escaped(c) { EscapedStart(c); } else { PlainStart(c); }
  }

  function Closed(x: string, r: seq<Byte>): seq<Byte> {
    PrefixCodes.Encode(JsonChar, x) + ([34] + r)
  }

  lemma TextStarts(x: string, r: seq<Byte>)
    ensures x == "" ==> Closed(x, r) == [34] + r
    ensures x != "" ==> Closed(x, r)[0] != 34 && Closed(x, r) == JsonChar(x[0]) + Closed(x[1..], r)
  {
    if x != "" {
      NeverQuote(x[0]);
    }
  }

  // A string up to its closing quote.
  lemma {:induction false} TextsApart(x: string, y: string, r: seq<Byte>, s: seq<Byte>)
    requires Closed(x, r) == Closed(y, s)
    ensures x == y
  {
    TextStarts(x, r);
    TextStarts(y, s);
    if x != "" && y != "" {
      CharsApart(x[0], y[0], Closed(x[1..], r), Closed(y[1..], s));
      Cancel(JsonChar(x[0]), Closed(x[1..], r), Closed(y[1..], s));
      TextsApart(x[1..], y[1..], r, s);
      assert x == [x[0]] + x[1..] && y == [y[0]] + y[1..];
    }
  }

  lemma QuotesApart(x: string, y: string, r: seq<Byte>, s: seq<Byte>)
    requires Quote(x) + r == Quote(y) + s
    ensures x == y && r == s
  {
    assert Quote(x) + r == [34] + Closed(x, r) && Quote(y) + s == [34] + Closed(y, s);
    Cancel([34], Closed(x, r), Closed(y, s));
    TextsApart(x, y, r, s);
    Cancel(Quote(x), r, s);
  }

  // The escape of a JSON string is invertible.
  lemma QuoteIsInjective(x: string, y: string)
    requires Quote(x) == Quote(y)
    ensures x == y
  {
    assert Quote(x) + [] == Quote(y) + [];
    QuotesApart(x, y, [], []);
  }

  // ------------------------------------------------------------ lists

  ghost predicate Opens<T(!new)>(f: T -> seq<Byte>, stop: Byte) {
    forall x :: f(x) != [] && f(x)[0] != stop
  }

  // The items of a list, up to the byte that closes it.
  lemma {:induction false} ListsApart<T(!new)>(f: T -> seq<Byte>, stop: Byte, xs: seq<T>, ys: seq<T>, r: seq<Byte>, s: seq<Byte>)
    requires Separable(f) && Opens(f, stop) && stop != 44
    requires Join(Map(xs, f)) + ([stop] + r) == Join(Map(ys, f)) + ([stop] + s)
    ensures xs == ys
  {
    StartOfList(f, stop, xs, r);
    StartOfList(f, stop, ys, s);
    if xs != [] {
      var more, others := AfterHead(f, stop, xs, r), AfterHead(f, stop, ys, s);
      HeadOfList(f, stop, xs, r);
      HeadOfList(f, stop, ys, s);
      assert Apart(f, xs[0], ys[0], more, others);
      Cancel(f(xs[0]), more, others);
      assert more[0] == others[0];
      if |xs| > 1 {
        Cancel([44], Join(Map(xs[1..], f)) + ([stop] + r), Join(Map(ys[1..], f)) + ([stop] + s));
        ListsApart(f, stop, xs[1..], ys[1..], r, s);
      }
      assert xs == [xs[0]] + xs[1..] && ys == [ys[0]] + ys[1..];
    }
  }

  // What follows the first item.
  function AfterHead<T>(f: T -> seq<Byte>, stop: Byte, xs: seq<T>, r: seq<Byte>): seq<Byte>
    requires xs != []
  {
    if |xs| == 1 then [stop] + r else [44] + (Join(Map(xs[1..], f)) + ([stop] + r))
  }

  lemma HeadOfList<T>(f: T -> seq<Byte>, stop: Byte, xs: seq<T>, r: seq<Byte>)
    requires xs != []
    ensures Join(Map(xs, f)) + ([stop] + r) == f(xs[0]) + AfterHead(f, stop, xs, r)
  {
    var items, rest := Map(xs, f), Map(xs[1..], f);
    assert items[0] == f(xs[0]) && items[1..] == rest;
    if |xs| > 1 {
      Regroup(f(xs[0]), [44], Join(rest), [stop] + r);
    }
  }

  lemma StartOfList<T(!new)>(f: T -> seq<Byte>, stop: Byte, xs: seq<T>, r: seq<Byte>)
    requires Opens(f, stop)
    ensures (Join(Map(xs, f)) + ([stop] + r))[0] == stop <==> xs == []
  {
    if xs != [] {
      HeadOfList(f, stop, xs, r);
    }
  }

  // ------------------------------------------------------------ fields

  // Equal fields of one name have equal values, with whatever follows.
  lemma FieldsApart(name: string, v: seq<Byte>, w: seq<Byte>, r: seq<Byte>, s: seq<Byte>)
    requires Field(name, v) + r == Field(name, w) + s
    ensures v + r == w + s
  {
    var head := [34] + Ascii(name) + [34, 58];
    assert Field(name, v) + r == head + (v + r) && Field(name, w) + s == head + (w + s);
    Cancel(head, v + r, w + s);
  }

  lemma BoolsApart(x: bool, y: bool, r: seq<Byte>, s: seq<Byte>)
    requires Bool(x) + r == Bool(y) + s
    ensures x == y && r == s
  {
    assert Bool(x)[0] == (Bool(x) + r)[0] == (Bool(y) + s)[0] == Bool(y)[0];
    Cancel(Bool(x), r, s);
  }

  function SameSiteText(s: SameSite): string {
    match s case Lax => "Lax" case NoRestriction => "None" case Strict => "Strict"
  }

  lemma SameSiteForm(x: Option<SameSite>)
    ensures x.None? ==> SameSiteValue(x) == [110, 117, 108, 108]
    ensures x.Some? ==> SameSiteValue(x) == Quote(SameSiteText(x.value))
  {
  }

  lemma SameSiteTextsDiffer(x: SameSite, y: SameSite)
    requires SameSiteText(x) == SameSiteText(y)
    ensures x == y
  {
    assert SameSiteText(x)[0] == SameSiteText(y)[0];
  }

  // null or a string.
  lemma NullsApart(x: Option<string>, y: Option<string>, a: seq<Byte>, b: seq<Byte>, r: seq<Byte>, s: seq<Byte>)
    requires a == (if x.Some? then Quote(x.value) else [110, 117, 108, 108])
    requires b == (if y.Some? then Quote(y.value) else [110, 117, 108, 108])
    requires a + r == b + s
    ensures x == y && r == s
  {
    assert a[0] == (a + r)[0] == (b + s)[0] == b[0];
    if x.Some? && y.Some? {
      QuotesApart(x.value, y.value, r, s);
    } else {
      Cancel(a, r, s);
    }
  }

  function TextOf(x: Option<SameSite>): Option<string> {
    if x.Some? then Some(SameSiteText(x.value)) else None
  }

  lemma SameSitesApart(x: Option<SameSite>, y: Option<SameSite>, a: seq<Byte>, b: seq<Byte>, r: seq<Byte>, s: seq<Byte>)
    requires a == SameSiteValue(x) && b == SameSiteValue(y) && a + r == b + s
    ensures x == y && r == s
  {
    SameSiteForm(x);
    SameSiteForm(y);
    NullsApart(TextOf(x), TextOf(y), a, b, r, s);
    if x.Some? && y.Some? {
      SameSiteTextsDiffer(x.value, y.value);
    }
  }

  function Digit(b: int): int {
    b - 48
  }

  function ValueOf(digits: seq<Byte>): int
    requires 1 <= |digits| <= 3
  {
    if |digits| == 1 then Digit(digits[0])
    else if |digits| == 2 then 10 * Digit(digits[0]) + Digit(digits[1])
    else 100 * Digit(digits[0]) + 10 * Digit(digits[1]) + Digit(digits[2])
  }

  lemma DigitsRead(n: nat)
    requires n < 1000
    ensures ValueOf(StatusDigits(n)) == n
  {
    TwoDivisions(n);
  }

  lemma TwoDivisions(n: nat)
    ensures n == 100 * (n / 100) + 10 * (n / 10 % 10) + n % 10 && n == 10 * (n / 10) + n % 10
  {
    assert n / 10 / 10 == n / 100;
  }

  // A number up to the comma behind it.
  lemma NumbersApart(m: nat, n: nat, r: seq<Byte>, s: seq<Byte>)
    requires m < 1000 && n < 1000 && StatusDigits(m) + ([44] + r) == StatusDigits(n) + ([44] + s)
    ensures m == n && r == s
  {
    var a, b := StatusDigits(m) + ([44] + r), StatusDigits(n) + ([44] + s);
    assert a[0] == b[0] && (|StatusDigits(m)| == 1 ==> a[1] == 44) && (|StatusDigits(n)| == 1 ==> b[1] == 44);
    assert |StatusDigits(m)| == 2 ==> a[2] == 44;
    assert |StatusDigits(n)| == 2 ==> b[2] == 44;
    assert |StatusDigits(m)| == |StatusDigits(n)|;
    assert forall i :: 0 <= i < |StatusDigits(m)| ==> a[i] == StatusDigits(m)[i] && b[i] == StatusDigits(n)[i];
    assert StatusDigits(m) == StatusDigits(n);
    DigitsRead(m);
    DigitsRead(n);
    Cancel(StatusDigits(m), [44] + r, [44] + s);
    Cancel([44], r, s);
  }

  // ------------------------------------------------------------ the parts of a response

  lemma HeadersApart()
    ensures Separable(RenderHeader) && Opens(RenderHeader, 125)
  {
    forall x, y, r, s
      ensures Apart(RenderHeader, x, y, r, s)
    {
      if RenderHeader(x) + r == RenderHeader(y) + s {
        HeaderApart(x, y, r, s);
      }
    }
  }

  lemma HeaderApart(x: Header, y: Header, r: seq<Byte>, s: seq<Byte>)
    requires RenderHeader(x) + r == RenderHeader(y) + s
    ensures x == y
  {
    Regroup(Quote(x.name), [58], Quote(x.value), r);
    Regroup(Quote(y.name), [58], Quote(y.value), s);
    QuotesApart(x.name, y.name, [58] + (Quote(x.value) + r), [58] + (Quote(y.value) + s));
    Cancel([58], Quote(x.value) + r, Quote(y.value) + s);
    QuotesApart(x.value, y.value, r, s);
  }

  lemma UrlsApart()
    ensures Separable(Quote) && Opens(Quote, 93)
  {
    forall x, y, r, s
      ensures Apart(Quote, x, y, r, s)
    {
      if Quote(x) + r == Quote(y) + s {
        QuotesApart(x, y, r, s);
      }
    }
  }

  // An object of three fields, up to what follows it.
  function ThreeFields(a: seq<Byte>, b: seq<Byte>, c: seq<Byte>, r: seq<Byte>): seq<Byte> {
    [123] + (Field("http_only", a) + ([44] + (Field("secure", b) + ([44] + (Field("same_site", c) + ([125] + r))))))
  }

  lemma CookieForm(c: Cookie, r: seq<Byte>)
    ensures RenderCookie(c) + r == ThreeFields(Bool(c.httpOnly), Bool(c.secure), SameSiteValue(c.sameSite), r)
  {
    ThreeJoined(Field("http_only", Bool(c.httpOnly)), Field("secure", Bool(c.secure)), Field("same_site", SameSiteValue(c.sameSite)), r);
  }

  lemma ThreeJoined(a: seq<Byte>, b: seq<Byte>, c: seq<Byte>, r: seq<Byte>)
    ensures Object([a, b, c]) + r == [123] + (a + ([44] + (b + ([44] + (c + ([125] + r))))))
  {
    assert [a, b, c][1..] == [b, c] && [b, c][1..] == [c];
    assert Join([b, c]) == b + [44] + c;
  }

  lemma CookieApart(x: Cookie, y: Cookie, r: seq<Byte>, s: seq<Byte>)
    requires RenderCookie(x) + r == RenderCookie(y) + s
    ensures x == y
  {
    CookieForm(x, r);
    CookieForm(y, s);
    FieldsOfCookieApart(x, y, SameSiteValue(x.sameSite), SameSiteValue(y.sameSite), r, s);
  }

  lemma FieldsOfCookieApart(x: Cookie, y: Cookie, a: seq<Byte>, b: seq<Byte>, r: seq<Byte>, s: seq<Byte>)
    requires a == SameSiteValue(x.sameSite) && b == SameSiteValue(y.sameSite)
    requires ThreeFields(Bool(x.httpOnly), Bool(x.secure), a, r) == ThreeFields(Bool(y.httpOnly), Bool(y.secure), b, s)
    ensures x == y
  {
    var r2, s2 := Field("same_site", a) + ([125] + r), Field("same_site", b) + ([125] + s);
    var r1, s1 := Field("secure", Bool(x.secure)) + ([44] + r2), Field("secure", Bool(y.secure)) + ([44] + s2);
    Cancel([123], Field("http_only", Bool(x.httpOnly)) + ([44] + r1), Field("http_only", Bool(y.httpOnly)) + ([44] + s1));
    BoolFieldsApart("http_only", x.httpOnly, y.httpOnly, r1, s1);
    BoolFieldsApart("secure", x.secure, y.secure, r2, s2);
    FieldsApart("same_site", a, b, [125] + r, [125] + s);
    SameSitesApart(x.sameSite, y.sameSite, a, b, [125] + r, [125] + s);
  }

  lemma BoolFieldsApart(name: string, x: bool, y: bool, r: seq<Byte>, s: seq<Byte>)
    requires Field(name, Bool(x)) + ([44] + r) == Field(name, Bool(y)) + ([44] + s)
    ensures x == y && r == s
  {
    FieldsApart(name, Bool(x), Bool(y), [44] + r, [44] + s);
    BoolsApart(x, y, [44] + r, [44] + s);
    Cancel([44], r, s);
  }

  lemma CookiesApart()
    ensures Separable(RenderCookie) && Opens(RenderCookie, 93)
  {
    forall x, y, r, s
      ensures Apart(RenderCookie, x, y, r, s)
    {
      if RenderCookie(x) + r == RenderCookie(y) + s {
        CookieApart(x, y, r, s);
      }
    }
  }

  // A list between its brackets, up to the comma behind it.
  lemma ListFieldsApart<T(!new)>(name: string, f: T -> seq<Byte>, open: Byte, stop: Byte, xs: seq<T>, ys: seq<T>,
                                 r: seq<Byte>, s: seq<Byte>)
    requires Separable(f) && Opens(f, stop) && stop != 44
    requires Field(name, [open] + Join(Map(xs, f)) + [stop]) + ([44] + r) ==
             Field(name, [open] + Join(Map(ys, f)) + [stop]) + ([44] + s)
    ensures xs == ys && r == s
  {
    var v, w := [open] + Join(Map(xs, f)) + [stop], [open] + Join(Map(ys, f)) + [stop];
    FieldsApart(name, v, w, [44] + r, [44] + s);
    var a, b := Join(Map(xs, f)) + ([stop] + ([44] + r)), Join(Map(ys, f)) + ([stop] + ([44] + s));
    assert v + ([44] + r) == [open] + a && w + ([44] + s) == [open] + b;
    Cancel([open], a, b);
    ListsApart(f, stop, xs, ys, [44] + r, [44] + s);
    Cancel(v, [44] + r, [44] + s);
    Cancel([44], r, s);
  }

  lemma TextFieldsApart(name: string, x: string, y: string, r: seq<Byte>, s: seq<Byte>)
    requires Field(name, Quote(x)) + ([44] + r) == Field(name, Quote(y)) + ([44] + s)
    ensures x == y && r == s
  {
    FieldsApart(name, Quote(x), Quote(y), [44] + r, [44] + s);
    QuotesApart(x, y, [44] + r, [44] + s);
    Cancel([44], r, s);
  }

  lemma NumberFieldsApart(name: string, m: nat, n: nat, r: seq<Byte>, s: seq<Byte>)
    requires m < 1000 && n < 1000
    requires Field(name, StatusDigits(m)) + ([44] + r) == Field(name, StatusDigits(n)) + ([44] + s)
    ensures m == n && r == s
  {
    FieldsApart(name, StatusDigits(m), StatusDigits(n), [44] + r, [44] + s);
    NumbersApart(m, n, r, s);
  }

  // ------------------------------------------------------------ the whole document

  // The document from its sixth, fifth, ... field on.
  function Last(e: Envelope): seq<Byte> {
    Field("connection_ip", Quote(e.address)) + [125]
  }

  function FromCookies(e: Envelope): seq<Byte> {
    Field("cookie_security", [91] + Join(Map(e.cookies, RenderCookie)) + [93]) + ([44] + Last(e))
  }

  function FromRedirects(e: Envelope): seq<Byte> {
    Field("redirect_chain", [91] + Join(Map(e.redirects, Quote)) + [93]) + ([44] + FromCookies(e))
  }

  function FromBody(e: Envelope): seq<Byte> {
    Field("body_base64", Quote(e.bodyBase64)) + ([44] + FromRedirects(e))
  }

  function FromHeaders(e: Envelope): seq<Byte> {
    Field("headers", [123] + Join(Map(e.headers, RenderHeader)) + [125]) + ([44] + FromBody(e))
  }

  function FromStatus(e: Envelope): seq<Byte>
    requires e.status < 1000
  {
    Field("status_code", StatusDigits(e.status)) + ([44] + FromHeaders(e))
  }

  function FromUrl(e: Envelope): seq<Byte>
    requires e.status < 1000
  {
    Field("url", Quote(e.url)) + ([44] + FromStatus(e))
  }

  lemma SevenJoined(a: seq<Byte>, b: seq<Byte>, c: seq<Byte>, d: seq<Byte>, e: seq<Byte>, f: seq<Byte>, g: seq<Byte>)
    ensures Object([a, b, c, d, e, f, g]) ==
            [123] + (a + ([44] + (b + ([44] + (c + ([44] + (d + ([44] + (e + ([44] + (f + ([44] + (g + [125])))))))))))))
  {
    FourJoined(d, e, f, g);
    ThreeMore(a, b, c, [d, e, f, g]);
    assert [a, b, c, d, e, f, g] == [a, b, c] + [d, e, f, g];
  }

  lemma FourJoined(d: seq<Byte>, e: seq<Byte>, f: seq<Byte>, g: seq<Byte>)
    ensures Join([d, e, f, g]) + [125] == d + ([44] + (e + ([44] + (f + ([44] + (g + [125]))))))
  {
    assert [d, e, f, g][1..] == [e, f, g] && [e, f, g][1..] == [f, g] && [f, g][1..] == [g];
    assert Join([f, g]) == f + [44] + g;
    assert Join([e, f, g]) == e + [44] + Join([f, g]);
  }

  lemma OneMore(a: seq<Byte>, rest: seq<seq<Byte>>)
    requires rest != []
    ensures Join([a] + rest) + [125] == a + ([44] + (Join(rest) + [125]))
  {
    assert ([a] + rest)[1..] == rest;
    Regroup(a, [44], Join(rest), [125]);
  }

  lemma ThreeMore(a: seq<Byte>, b: seq<Byte>, c: seq<Byte>, rest: seq<seq<Byte>>)
    requires rest != []
    ensures Object([a, b, c] + rest) == [123] + (a + ([44] + (b + ([44] + (c + ([44] + (Join(rest) + [125])))))))
  {
    OneMore(c, rest);
    OneMore(b, [c] + rest);
    OneMore(a, [b] + ([c] + rest));
    assert [a, b, c] + rest == [a] + ([b] + ([c] + rest));
  }

  lemma RenderForm(e: Envelope)
    requires e.status < 1000
    ensures Render(e) == [123] + FromUrl(e)
  {
    SevenJoined(Field("url", Quote(e.url)), Field("status_code", StatusDigits(e.status)),
                Field("headers", RenderHeaders(e.headers)), Field("body_base64", Quote(e.bodyBase64)),
                Field("redirect_chain", RenderUrls(e.redirects)),
                Field("cookie_security", RenderCookies(e.cookies)), Field("connection_ip", Quote(e.address)));
  }

  lemma ListsAndAddress(e: Envelope, d: Envelope)
    requires FromBody(e) == FromBody(d)
    ensures e.bodyBase64 == d.bodyBase64 && e.redirects == d.redirects && e.cookies == d.cookies && e.address == d.address
  {
    TextFieldsApart("body_base64", e.bodyBase64, d.bodyBase64, FromRedirects(e), FromRedirects(d));
    UrlsApart();
    ListFieldsApart("redirect_chain", Quote, 91, 93, e.redirects, d.redirects, FromCookies(e), FromCookies(d));
    CookiesApart();
    ListFieldsApart("cookie_security", RenderCookie, 91, 93, e.cookies, d.cookies, Last(e), Last(d));
    FieldsApart("connection_ip", Quote(e.address), Quote(d.address), [125], [125]);
    QuotesApart(e.address, d.address, [125], [125]);
  }

  // Two responses with one document are the same response.
  lemma RenderIsInjective(e: Envelope, d: Envelope)
    requires e.status < 1000 && d.status < 1000 && Render(e) == Render(d)
    ensures e == d
  {
    RenderForm(e);
    RenderForm(d);
    Cancel([123], FromUrl(e), FromUrl(d));
    TextFieldsApart("url", e.url, d.url, FromStatus(e), FromStatus(d));
    NumberFieldsApart("status_code", e.status, d.status, FromHeaders(e), FromHeaders(d));
    HeadersApart();
    ListFieldsApart("headers", RenderHeader, 123, 125, e.headers, d.headers, FromBody(e), FromBody(d));
    ListsAndAddress(e, d);
  }

  ghost predicate Documents(e: Envelope, document: seq<Byte>) {
    e.status < 1000 && Render(e) == document
  }

  // So there is a parser that reads back every document of the relay.
  ghost function Parse(document: seq<Byte>): Option<Envelope> {
    if exists e :: Documents(e, document) then
      var e :| Documents(e, document);
      Some(e)
    else None
  }

  lemma ParseReadsBack(e: Envelope, document: seq<Byte>)
    requires Documents(e, document)
    ensures Parse(document) == Some(e)
  {
    forall d | Documents(d, document)
      ensures d == e
    {
      RenderIsInjective(e, d);
    }
  }
}
