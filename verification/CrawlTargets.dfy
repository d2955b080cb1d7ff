/**
 The crawl over the texts of target URLs. The client normalises the text it is given
 once more before it requests it, and through the relay twice more. Absolute links are
 split and put together again; how relative links are resolved is a library function.
 */
module CrawlTargets {
  import opened Prelude
  import opened TargetUrl
  import Allowlist
  import Crawler

  type Resolver = (string, string) -> Option<string>

  // ------------------------------------------------------------ joining

  function LastSegment(path: string): string {
    if path == "" || path[|path| - 1] == '/' then "" else LastSegment(path[..|path| - 1]) + [path[|path| - 1]]
  }

  // Empty parameters at the end of a path are lost.
  function DropParams(path: string): string {
    if EndsWith(path, ';') && ';' !in LastSegment(path[..|path| - 1]) then path[..|path| - 1] else path
  }

  // Putting the parts of a URL together loses an empty query and an empty fragment.
  function Unsplit(p: Parts): string {
    p.scheme + ("://" + p.netloc) + WriteTail(DropParams(p.path), p.query)
    + (if p.fragment == "" then "" else ['#'] + p.fragment)
  }

  function SplitLink(text: string): Parts {
    SplitUrl(Clean(DropControls(text)))
  }

  // Joining a link to a page. A link with a network location replaces the page, taken
  // apart and put together again when it has the page's scheme.
  function Join(lib: Library, resolve: Resolver, page: string, link: string): Option<string> {
    var p, base := SplitLink(link), SplitLink(page);
    if !WebScheme(p.scheme) || p.netloc == "" then resolve(page, link)
    else if lib.netloc(p.netloc).None? || lib.netloc(base.netloc).None? then None
    else if p.scheme == base.scheme then Some(Unsplit(p))
    else Some(link)
  }

  // A joined link that the library cannot split fails like one that it cannot join.
  function Joined(lib: Library, resolve: Resolver, page: string, link: string): Option<string> {
    var joined := Join(lib, resolve, page, link);
    if joined.Some? && Normalize(lib, joined.value) == Err(Unsplittable) then None else joined
  }

  // ------------------------------------------------------------ the web

  function FormOf(u: Allowlist.Url): Crawler.Url
    requires u.origin.port >= 0
  {
    Crawler.Url(Text(u), u.origin.scheme, u.origin.host, u.origin.port)
  }

  function Normalized(lib: Library, raw: string): Option<Crawler.Url> {
    var r := Normalize(lib, raw);
    if r.Err? then None else Some(FormOf(r.value))
  }

  // The client itself normalises a text once and requests it if the policy covers it.
  function Direct(lib: Library, covers: Allowlist.Url -> bool, text: string): Option<string> {
    Admitted(lib, covers, text)
  }

  // Through the relay the worker and the relay both do.
  function Relayed(lib: Library, covers: Allowlist.Url -> bool, text: string): Option<string> {
    var sent := Admitted(lib, covers, text);
    if sent.None? then None else Admitted(lib, covers, sent.value)
  }

  function WebOf(lib: Library, request: string -> Option<string>, resolve: Resolver, site: string -> Crawler.Response):
    Crawler.Web
  {
    Crawler.Web((raw: string) => Normalized(lib, raw), (page: string, link: string) => Joined(lib, resolve, page, link),
                request, site)
  }

  function DirectWeb(lib: Library, covers: Allowlist.Url -> bool, resolve: Resolver, site: string -> Crawler.Response):
    Crawler.Web
  {
    WebOf(lib, (text: string) => Direct(lib, covers, text), resolve, site)
  }

  function RelayedWeb(lib: Library, covers: Allowlist.Url -> bool, resolve: Resolver, site: string -> Crawler.Response):
    Crawler.Web
  {
    WebOf(lib, (text: string) => Relayed(lib, covers, text), resolve, site)
  }

  // ------------------------------------------------------------ what settles

  // The text of a normal URL and its two further forms, as far as there are any.
  lemma DirectForms(lib: Library, covers: Allowlist.Url -> bool, u: Allowlist.Url, u1: Allowlist.Url)
    requires Normal(lib, u) && Normalize(lib, Text(u)) == Ok(u1)
    ensures u1.origin.port >= 0 && Direct(lib, covers, Text(u)) == if covers(u1) then Some(Text(u1)) else None
  {
    AgainIsNormal(lib, u, u1);
  }

  // A second form requests what its own normal form requests, directly or through the
  // relay.
  lemma SecondFormIsStable(lib: Library, covers: Allowlist.Url -> bool, u: Allowlist.Url, u1: Allowlist.Url,
                           u2: Allowlist.Url)
    requires Normal(lib, u) && Normalize(lib, Text(u)) == Ok(u1)
    requires u1.origin.port >= 0 && Normalize(lib, Text(u1)) == Ok(u2)
    ensures u2.origin.port >= 0 && Normalize(lib, Text(u2)) == Ok(u2)
    ensures var v := if covers(u2) then Some(Text(u2)) else None;
            && Direct(lib, covers, Text(u1)) == v && Direct(lib, covers, Text(u2)) == v
            && Relayed(lib, covers, Text(u1)) == v && Relayed(lib, covers, Text(u2)) == v
  {
    ThirdForm(lib, u, u1, u2);
  }

  // A page offers texts of normal URLs of the start's origin only.
  lemma OfferIsNormal(lib: Library, request: string -> Option<string>, resolve: Resolver, site: string -> Crawler.Response,
                      start: Allowlist.Url, r: Crawler.Response, m: string) returns (u: Allowlist.Url)
    requires start.origin.port >= 0 && Rereads(lib, start.origin)
    requires Crawler.Offers(WebOf(lib, request, resolve, site), FormOf(start), r, m)
    ensures Normal(lib, u) && Text(u) == m
  {
    var web := WebOf(lib, request, resolve, site);
    var i :| 0 <= i < |r.links| && Crawler.LinkTarget(web, FormOf(start), r.url, r.links[i]) == Some(m);
    var joined := web.join(r.url, r.links[i]).value;
    u := Normalize(lib, joined).value;
    assert web.normalize(joined) == Some(FormOf(u)) && u.origin == start.origin;
    NormalizedIsNormal(lib, joined);
  }

  lemma DirectLinksSettle(lib: Library, covers: Allowlist.Url -> bool, resolve: Resolver, site: string -> Crawler.Response,
                          start: Allowlist.Url)
    requires start.origin.port >= 0 && Rereads(lib, start.origin)
    ensures Crawler.LinksSettle(DirectWeb(lib, covers, resolve, site), FormOf(start))
  {
    var web := DirectWeb(lib, covers, resolve, site);
    forall v, m | Crawler.Offers(web, FormOf(start), web.site(v), m) && web.normalize(m).Some?
      ensures Crawler.Settles(web, web.normalize(m).value.text)
    {
      var u := OfferIsNormal(lib, web.request, resolve, site, start, web.site(v), m);
      DirectSecondSettles(lib, covers, resolve, site, u);
    }
  }

  lemma DirectSecondSettles(lib: Library, covers: Allowlist.Url -> bool, resolve: Resolver,
                            site: string -> Crawler.Response, u: Allowlist.Url)
    requires Normal(lib, u) && Normalize(lib, Text(u)).Ok?
    ensures Crawler.Settles(DirectWeb(lib, covers, resolve, site), Text(Normalize(lib, Text(u)).value))
  {
    var u1 := Normalize(lib, Text(u)).value;
    if Normalize(lib, Text(u1)).Ok? {
      SecondFormIsStable(lib, covers, u, u1, Normalize(lib, Text(u1)).value);
    }
  }

  lemma RelayedLinksSettle(lib: Library, covers: Allowlist.Url -> bool, resolve: Resolver, site: string -> Crawler.Response,
                           start: Allowlist.Url)
    requires start.origin.port >= 0 && Rereads(lib, start.origin)
    ensures Crawler.LinksSettle(RelayedWeb(lib, covers, resolve, site), FormOf(start))
  {
    var web := RelayedWeb(lib, covers, resolve, site);
    forall v, m | Crawler.Offers(web, FormOf(start), web.site(v), m) && web.normalize(m).Some?
      ensures Crawler.Settles(web, web.normalize(m).value.text)
    {
      var u := OfferIsNormal(lib, web.request, resolve, site, start, web.site(v), m);
      RelayedSecondSettles(lib, covers, resolve, site, u);
    }
  }

  lemma RelayedSecondSettles(lib: Library, covers: Allowlist.Url -> bool, resolve: Resolver,
                             site: string -> Crawler.Response, u: Allowlist.Url)
    requires Normal(lib, u) && Normalize(lib, Text(u)).Ok?
    ensures Crawler.Settles(RelayedWeb(lib, covers, resolve, site), Text(Normalize(lib, Text(u)).value))
  {
    var u1 := Normalize(lib, Text(u)).value;
    if Normalize(lib, Text(u1)).Ok? {
      SecondFormIsStable(lib, covers, u, u1, Normalize(lib, Text(u1)).value);
    }
  }

  // ------------------------------------------------------------ the crawl is the search

  // A start URL whose two further normal forms differ and are both covered: its query is
  // nothing but blanks, and its path ends in one.
  predicate StartClashes(lib: Library, covers: Allowlist.Url -> bool, u: Allowlist.Url)
    requires u.origin.port >= 0
  {
    && TwiceBlank(u) && |Text(u)| <= MAX_URL_LENGTH && Allowlist.Canonical(RStrip(u.path), lib.unquote)
    && covers(WithoutQuery(u)) && covers(Shortened(u))
  }

  lemma DirectStartSettles(lib: Library, covers: Allowlist.Url -> bool, resolve: Resolver,
                           site: string -> Crawler.Response, u: Allowlist.Url)
    requires Normal(lib, u) && !StartClashes(lib, covers, u)
    requires Direct(lib, covers, Text(u)).Some?
    ensures Crawler.Settles(DirectWeb(lib, covers, resolve, site), Text(u))
  {
    var u1 := Normalize(lib, Text(u)).value;
    if Normalize(lib, Text(u1)).Ok? {
      var u2 := Normalize(lib, Text(u1)).value;
      if u1 != u2 {
        OnlyTwiceBlank(lib, u, u1, u2);
        WrittenAgain(lib, u);
        TwiceBlankForms(lib, u);
      }
    }
  }

  // For a client of its own the crawl is the search unless the start clashes.
  lemma DirectCrawlIsSearch(lib: Library, covers: Allowlist.Url -> bool, resolve: Resolver,
                            site: string -> Crawler.Response, raw: string, maxDepth: int, pageCap: int)
    requires Normalize(lib, raw).Ok? && Rereads(lib, Normalize(lib, raw).value.origin)
    requires !StartClashes(lib, covers, Normalize(lib, raw).value)
    ensures Crawler.Searches(DirectWeb(lib, covers, resolve, site), raw, maxDepth, pageCap)
  {
    var u, web := Normalize(lib, raw).value, DirectWeb(lib, covers, resolve, site);
    NormalizedIsNormal(lib, raw);
    assert web.normalize(raw) == Some(FormOf(u));
    if web.request(Text(u)).None? {
      Crawler.RefusedStartIsSearched(web, raw, maxDepth, pageCap);
    } else {
      DirectStartSettles(lib, covers, resolve, site, u);
      DirectLinksSettle(lib, covers, resolve, site, u);
      Crawler.SettlingLinksAreSearched(web, raw, maxDepth, pageCap);
    }
  }

  lemma RelayedStartSettles(lib: Library, covers: Allowlist.Url -> bool, resolve: Resolver,
                            site: string -> Crawler.Response, u: Allowlist.Url)
    requires Normal(lib, u) && Relayed(lib, covers, Text(u)).Some?
    ensures Crawler.Settles(RelayedWeb(lib, covers, resolve, site), Text(u))
  {
    var u1 := Normalize(lib, Text(u)).value;
    DirectForms(lib, covers, u, u1);
    SecondFormIsStable(lib, covers, u, u1, Normalize(lib, Text(u1)).value);
  }

  // Through the relay it always is.
  lemma RelayedCrawlIsSearch(lib: Library, covers: Allowlist.Url -> bool, resolve: Resolver,
                             site: string -> Crawler.Response, raw: string, maxDepth: int, pageCap: int)
    requires Normalize(lib, raw).Ok? && Rereads(lib, Normalize(lib, raw).value.origin)
    ensures Crawler.Searches(RelayedWeb(lib, covers, resolve, site), raw, maxDepth, pageCap)
  {
    var u, web := Normalize(lib, raw).value, RelayedWeb(lib, covers, resolve, site);
    NormalizedIsNormal(lib, raw);
    assert web.normalize(raw) == Some(FormOf(u));
    if web.request(Text(u)).None? {
      Crawler.RefusedStartIsSearched(web, raw, maxDepth, pageCap);
    } else {
      RelayedStartSettles(lib, covers, resolve, site, u);
      RelayedLinksSettle(lib, covers, resolve, site, u);
      Crawler.SettlingLinksAreSearched(web, raw, maxDepth, pageCap);
    }
  }

  // ------------------------------------------------------------ a start that clashes

  predicate Splits(lib: Library, page: string) {
    lib.netloc(SplitLink(page).netloc).Some?
  }

  lemma WrittenLink(lib: Library, u: Allowlist.Url, fragment: string)
    requires Normal(lib, u) && Safe(fragment)
    ensures SplitLink(Text(u)) == Parts(u.origin.scheme, Location(u), u.path, u.query, "")
    ensures SplitLink(Marked(u, fragment)) == Parts(u.origin.scheme, Location(u), u.path, u.query, fragment)
  {
    var tail := WriteTail(u.path, u.query);
    var marked := (tail + ['#']) + fragment;
    TextIsWhole(lib, u);
    Regroup(PrefixOf(u), tail, ['#'], fragment);
    ReadsWhole(PrefixOf(u), tail);
    ReadsWhole(PrefixOf(u), marked);
    SplitWritten(u.origin.scheme, Location(u), tail);
    SplitWritten(u.origin.scheme, Location(u), marked);
    SplitTailWritten(u.origin.scheme, Location(u), u.path, u.query);
    MarkedTail(u.origin.scheme, Location(u), u.path, u.query, fragment);
  }

  lemma ReadsWhole(prefix: string, tail: string)
    requires prefix != "" && Letter(prefix[0]) && Safe(prefix) && Safe(tail)
    ensures Clean(DropControls(prefix + tail)) == prefix + tail
  {
    CleanIsSafe(prefix + tail);
  }

  // A link written as a normal URL, or with a fragment of blanks behind it, survives
  // joining.
  lemma LinkIsKept(lib: Library, resolve: Resolver, page: string, u: Allowlist.Url, blanks: string)
    requires Normal(lib, u) && !EndsWith(u.path, ';') && Splits(lib, page)
    requires blanks != "" && Safe(blanks)
    ensures Join(lib, resolve, page, Text(u)) == Some(Text(u))
    ensures Join(lib, resolve, page, Marked(u, blanks)) == Some(Marked(u, blanks))
  {
    var p := Parts(u.origin.scheme, Location(u), u.path, u.query, "");
    WrittenLink(lib, u, blanks);
    UnsplitWritten(u, blanks);
    JoinsToItself(lib, resolve, page, Text(u), p);
    JoinsToItself(lib, resolve, page, Marked(u, blanks), p.(fragment := blanks));
  }

  lemma JoinsToItself(lib: Library, resolve: Resolver, page: string, link: string, p: Parts)
    requires SplitLink(link) == p && WebScheme(p.scheme) && p.netloc != "" && Unsplit(p) == link
    requires lib.netloc(p.netloc).Some? && Splits(lib, page)
    ensures Join(lib, resolve, page, link) == Some(link)
  {
  }

  lemma UnsplitWritten(u: Allowlist.Url, fragment: string)
    requires u.origin.port >= 0 && !EndsWith(u.path, ';') && fragment != ""
    ensures Unsplit(Parts(u.origin.scheme, Location(u), u.path, u.query, "")) == Text(u)
    ensures Unsplit(Parts(u.origin.scheme, Location(u), u.path, u.query, fragment)) == Marked(u, fragment)
  {
    var front := u.origin.scheme + ("://" + Location(u));
    assert front == u.origin.scheme + "://" + Location(u);
    assert Text(u) == front + WriteTail(u.path, u.query);
    assert Text(u) + "" == Text(u);
  }

  lemma MarkedTarget(lib: Library, covers: Allowlist.Url -> bool, resolve: Resolver, site: string -> Crawler.Response,
                     start: Allowlist.Url, page: string, u: Allowlist.Url)
    requires Normal(lib, u) && !EndsWith(u.path, ';') && Splits(lib, page) && |Marked(u, [' '])| <= MAX_URL_LENGTH
    requires start.origin == u.origin
    ensures Crawler.LinkTarget(DirectWeb(lib, covers, resolve, site), FormOf(start), page, Marked(u, [' '])) == Some(Text(u))
  {
    var link, web := Marked(u, [' ']), DirectWeb(lib, covers, resolve, site);
    LinkIsKept(lib, resolve, page, u, [' ']);
    BlankFragmentIsDropped(lib, u, [' ']);
    assert web.join(page, link) == Joined(lib, resolve, page, link) && web.normalize(link) == Normalized(lib, link);
  }

  // What a start that clashes requests, and what a link to its own text would.
  lemma ClashingForms(lib: Library, covers: Allowlist.Url -> bool, resolve: Resolver, site: string -> Crawler.Response,
                      u: Allowlist.Url)
    requires Normal(lib, u) && StartClashes(lib, covers, u)
    ensures var web := DirectWeb(lib, covers, resolve, site);
            && web.request(Text(u)) == Some(Text(WithoutQuery(u)))
            && Crawler.TakenUp(web, Text(u)) == Some(Text(Shortened(u)))
            && Text(Shortened(u)) != Text(WithoutQuery(u)) && !EndsWith(u.path, ';')
  {
    var web := DirectWeb(lib, covers, resolve, site);
    TwiceBlankForms(lib, u);
    assert web.request(Text(u)) == Direct(lib, covers, Text(u));
    assert web.request(Text(WithoutQuery(u))) == Direct(lib, covers, Text(WithoutQuery(u)));
    assert web.normalize(Text(u)) == Normalized(lib, Text(u));
  }

  // A start that clashes, and on its page a link to the start with a blank fragment,
  // among whatever other links: the link is dropped as seen. What it leads to is one hop
  // away, and is requested in time exactly when another link of the page leads there.
  lemma ClashingStartMissesALink(lib: Library, covers: Allowlist.Url -> bool, resolve: Resolver,
                                 site: string -> Crawler.Response, raw: string, maxDepth: int, pageCap: int)
    requires Normalize(lib, raw).Ok? && Rereads(lib, Normalize(lib, raw).value.origin) && maxDepth >= 1
    requires var u := Normalize(lib, raw).value;
             StartClashes(lib, covers, u) && |Marked(u, [' '])| <= MAX_URL_LENGTH
    requires var u := Normalize(lib, raw).value;
             var page := site(Text(WithoutQuery(u)));
             page.Page? && Marked(u, [' ']) in page.links && Splits(lib, page.url)
    requires var web := DirectWeb(lib, covers, resolve, site);
             Crawler.Finished(web, Crawler.Crawl(web, raw, maxDepth, pageCap), pageCap)
    ensures var u, web := Normalize(lib, raw).value, DirectWeb(lib, covers, resolve, site);
            var end, v := Crawler.Crawl(web, raw, maxDepth, pageCap), Text(Shortened(u));
            && Crawler.Hops(web, FormOf(u), 1, v)
            && (Crawler.Requested(web, end.calls, v, 1) <==> Crawler.OtherLink(web, FormOf(u), v))
  {
    var u, web := Normalize(lib, raw).value, DirectWeb(lib, covers, resolve, site);
    var page := site(Text(WithoutQuery(u)));
    NormalizedIsNormal(lib, raw);
    ClashingForms(lib, covers, resolve, site, u);
    MarkedTarget(lib, covers, resolve, site, u, page.url, u);
    assert web.normalize(raw) == Some(FormOf(u));
    assert Crawler.Offers(web, FormOf(u), page, Text(u));
    Crawler.UnsettledStartMissesALink(web, raw, Text(Shortened(u)), maxDepth, pageCap);
  }

  function OnePage(at: string, link: string): (site: string -> Crawler.Response)
    ensures site(at) == Crawler.Page(at, [link])
  {
    x => if x == at then Crawler.Page(x, [link]) else Crawler.FetchError("not found")
  }

  lemma ClashingStartIsNoSearch(lib: Library, covers: Allowlist.Url -> bool, resolve: Resolver, raw: string, maxDepth: int,
                                pageCap: int)
    requires Normalize(lib, raw).Ok? && Rereads(lib, Normalize(lib, raw).value.origin) && maxDepth >= 1 && pageCap >= 2
    requires var u := Normalize(lib, raw).value;
             StartClashes(lib, covers, u) && |Marked(u, [' '])| <= MAX_URL_LENGTH
    ensures var u := Normalize(lib, raw).value;
            var site := OnePage(Text(WithoutQuery(u)), Marked(u, [' ']));
            !Crawler.Searches(DirectWeb(lib, covers, resolve, site), raw, maxDepth, pageCap)
  {
    var u := Normalize(lib, raw).value;
    var at, link, v := Text(WithoutQuery(u)), Marked(u, [' ']), Text(Shortened(u));
    var site := OnePage(at, link);
    var web := DirectWeb(lib, covers, resolve, site);
    NormalizedIsNormal(lib, raw);
    ClashingForms(lib, covers, resolve, site, u);
    TwiceBlankForms(lib, u);
    WrittenLink(lib, WithoutQuery(u), "");
    MarkedTarget(lib, covers, resolve, site, u, at, u);
    assert web.normalize(raw) == Some(FormOf(u));
    Crawler.LoneLinkEndsTheCrawl(web, raw, at, link, v, maxDepth, pageCap);
    ClashingStartMissesALink(lib, covers, resolve, site, raw, maxDepth, pageCap);
  }

  // Exactly the starts that clash have a site of which the crawl is not the search, as
  // long as the start leaves room for the link that shows it.
  lemma CrawlIsSearchIff(lib: Library, covers: Allowlist.Url -> bool, resolve: Resolver, raw: string, maxDepth: int,
                         pageCap: int)
    requires Normalize(lib, raw).Ok? && Rereads(lib, Normalize(lib, raw).value.origin) && maxDepth >= 1 && pageCap >= 2
    requires |Marked(Normalize(lib, raw).value, [' '])| <= MAX_URL_LENGTH
    ensures (forall site :: Crawler.Searches(DirectWeb(lib, covers, resolve, site), raw, maxDepth, pageCap))
            <==> !StartClashes(lib, covers, Normalize(lib, raw).value)
  {
    if StartClashes(lib, covers, Normalize(lib, raw).value) {
      ClashingStartIsNoSearch(lib, covers, resolve, raw, maxDepth, pageCap);
    } else {
      forall site
        ensures Crawler.Searches(DirectWeb(lib, covers, resolve, site), raw, maxDepth, pageCap)
      {
        DirectCrawlIsSearch(lib, covers, resolve, site, raw, maxDepth, pageCap);
      }
    }
  }

  // ------------------------------------------------------------ how often a URL is requested

  // No joined link ends in an empty fragment.
  ghost predicate PlainLinks(lib: Library, resolve: Resolver, site: string -> Crawler.Response) {
    forall v, i :: site(v).Page? && 0 <= i < |site(v).links| ==>
      var joined := Joined(lib, resolve, site(v).url, site(v).links[i]);
      joined.Some? ==> !EndsWith(Prepare(joined.value), '#')
  }

  lemma StandsAlone(lib: Library, covers: Allowlist.Url -> bool, resolve: Resolver, site: string -> Crawler.Response,
                    u: Allowlist.Url)
    requires Normal(lib, u) && !EndsBlank(Text(u))
    ensures Crawler.Stands(DirectWeb(lib, covers, resolve, site), Text(u))
  {
    WrittenAgain(lib, u);
  }

  lemma PlainOfferStands(lib: Library, covers: Allowlist.Url -> bool, resolve: Resolver, site: string -> Crawler.Response,
                         start: Allowlist.Url, v: string, m: string)
    requires start.origin.port >= 0 && Rereads(lib, start.origin) && PlainLinks(lib, resolve, site)
    requires Crawler.Offers(DirectWeb(lib, covers, resolve, site), FormOf(start), site(v), m) && Normalize(lib, m).Ok?
    ensures Crawler.Stands(DirectWeb(lib, covers, resolve, site), Text(Normalize(lib, m).value))
  {
    var web, r := DirectWeb(lib, covers, resolve, site), site(v);
    var i :| 0 <= i < |r.links| && Crawler.LinkTarget(web, FormOf(start), r.url, r.links[i]) == Some(m);
    var joined := web.join(r.url, r.links[i]).value;
    var u := Normalize(lib, joined).value;
    assert web.join(r.url, r.links[i]) == Joined(lib, resolve, r.url, r.links[i]);
    assert web.normalize(joined) == Some(FormOf(u)) && u.origin == start.origin && Text(u) == m;
    NormalizedIsNormal(lib, joined);
    AgainIsNormal(lib, u, Normalize(lib, m).value);
    SecondFormSettles(lib, joined);
    StandsAlone(lib, covers, resolve, site, Normalize(lib, m).value);
  }

  // Without empty fragments, and without an empty query at the end of the start, every
  // URL is requested at most once.
  lemma PlainCrawlRequestsOnce(lib: Library, covers: Allowlist.Url -> bool, resolve: Resolver,
                               site: string -> Crawler.Response, raw: string, maxDepth: int, pageCap: int)
    requires Normalize(lib, raw).Ok? && Rereads(lib, Normalize(lib, raw).value.origin)
    requires !EndsWith(Prepare(raw), '#') && !EndsWith(Prepare(raw), '?') && PlainLinks(lib, resolve, site)
    ensures var web := DirectWeb(lib, covers, resolve, site);
            web.normalize(raw).Some? && Crawler.RequestedOnce(web, Crawler.Crawl(web, raw, maxDepth, pageCap).calls)
  {
    var u, web := Normalize(lib, raw).value, DirectWeb(lib, covers, resolve, site);
    NormalizedIsNormal(lib, raw);
    EndsBlankTogether(lib, u);
    if EndsBlank(Text(u)) {
      BlankNeedsAMark(lib, raw);
    }
    StandsAlone(lib, covers, resolve, site, u);
    assert web.normalize(raw) == Some(FormOf(u));
    forall v, m | Crawler.Offers(web, FormOf(u), web.site(v), m) && web.normalize(m).Some?
      ensures Crawler.Stands(web, web.normalize(m).value.text)
    {
      PlainOfferStands(lib, covers, resolve, site, u, v, m);
    }
    Crawler.StandingLinksAreRequestedOnce(web, raw, maxDepth, pageCap);
  }

  // A start page with links to both forms of a URL, among whatever others: it is called
  // under its text and under the text with a blank, and both request the same.
  lemma BothFormsAreRequested(lib: Library, covers: Allowlist.Url -> bool, resolve: Resolver,
                              site: string -> Crawler.Response, raw: string, u: Allowlist.Url, maxDepth: int, pageCap: int)
    requires Normalize(lib, raw).Ok? && Rereads(lib, Normalize(lib, raw).value.origin) && maxDepth >= 1 && pageCap >= 1
    requires u.origin == Normalize(lib, raw).value.origin && Normal(lib, u) && StartClashes(lib, covers, u)
    requires |Marked(u, [' '])| <= MAX_URL_LENGTH && !EndsWith(Shortened(u).path, ';')
    requires var start := Normalize(lib, raw).value; Text(start) != Text(u) && Text(start) != Text(Shortened(u))
    requires var at := Direct(lib, covers, Text(Normalize(lib, raw).value));
             at.Some? && var page := site(at.value);
             && page.Page? && Splits(lib, page.url)
             && Marked(u, [' ']) in page.links && Text(Shortened(u)) in page.links
    requires var web := DirectWeb(lib, covers, resolve, site);
             Crawler.Finished(web, Crawler.Crawl(web, raw, maxDepth, pageCap), pageCap)
    ensures var web := DirectWeb(lib, covers, resolve, site);
            !Crawler.RequestedOnce(web, Crawler.Crawl(web, raw, maxDepth, pageCap).calls)
  {
    var start, web := Normalize(lib, raw).value, DirectWeb(lib, covers, resolve, site);
    var page := site(Direct(lib, covers, Text(start)).value);
    assert web.normalize(raw) == Some(FormOf(start)) && Crawler.Fetch(web, Text(start)) == page;
    BothFormsAreLinked(lib, covers, resolve, site, start, page, u);
    ShortenedStands(lib, covers, resolve, site, start, page.url, u);
    ClashingForms(lib, covers, resolve, site, u);
    Crawler.TwoStartLinksAreRequestedTwice(web, raw, Text(u), Text(WithoutQuery(u)), Text(Shortened(u)),
                                           Text(Shortened(u)), maxDepth, pageCap);
  }

  lemma BothFormsAreLinked(lib: Library, covers: Allowlist.Url -> bool, resolve: Resolver, site: string -> Crawler.Response,
                           start: Allowlist.Url, page: Crawler.Response, u: Allowlist.Url)
    requires Normal(lib, u) && StartClashes(lib, covers, u) && start.origin == u.origin
    requires |Marked(u, [' '])| <= MAX_URL_LENGTH && !EndsWith(Shortened(u).path, ';')
    requires Text(start) != Text(u) && Text(start) != Text(Shortened(u))
    requires Crawler.Fetch(DirectWeb(lib, covers, resolve, site), Text(start)) == page && page.Page?
    requires Splits(lib, page.url) && Marked(u, [' ']) in page.links && Text(Shortened(u)) in page.links
    ensures var web := DirectWeb(lib, covers, resolve, site);
            && Crawler.StartLink(web, FormOf(start), Text(u), Text(WithoutQuery(u)))
            && Crawler.StartLink(web, FormOf(start), Text(Shortened(u)), Text(Shortened(u)))
  {
    var web := DirectWeb(lib, covers, resolve, site);
    TwiceBlankForms(lib, u);
    ClashingForms(lib, covers, resolve, site, u);
    ShortenedStands(lib, covers, resolve, site, start, page.url, u);
    MarkedTarget(lib, covers, resolve, site, start, page.url, u);
    assert web.normalize(Text(u)) == Normalized(lib, Text(u));
  }

  lemma ShortenedStands(lib: Library, covers: Allowlist.Url -> bool, resolve: Resolver, site: string -> Crawler.Response,
                        start: Allowlist.Url, page: string, u: Allowlist.Url)
    requires Normal(lib, u) && StartClashes(lib, covers, u) && Splits(lib, page) && start.origin == u.origin
    requires !EndsWith(Shortened(u).path, ';')
    ensures var web, text := DirectWeb(lib, covers, resolve, site), Text(Shortened(u));
            && web.normalize(text) == Some(FormOf(Shortened(u)))
            && Crawler.LinkTarget(web, FormOf(start), page, text) == Some(text)
            && web.request(Text(WithoutQuery(u))) == Some(text) && web.request(text) == Some(text)
  {
    var web, u1, u2 := DirectWeb(lib, covers, resolve, site), WithoutQuery(u), Shortened(u);
    TwiceBlankForms(lib, u);
    ThirdForm(lib, u, u1, u2);
    LinkIsKept(lib, resolve, page, u2, [' ']);
    assert web.normalize(Text(u2)) == Normalized(lib, Text(u2));
    assert web.join(page, Text(u2)) == Joined(lib, resolve, page, Text(u2));
  }

  // ------------------------------------------------------------ such URLs exist

  function EveryUrl(u: Allowlist.Url): bool {
    true
  }

  // "http://h:80/a ? #", and so for every other plain name.
  lemma ClashingStartExists(name: string)
    requires Plainly(name) && !EndsBlank(name) && |name| <= 4000
    ensures var u := SampleUrl("/" + (name + [' ']), [' ']);
            && Rereads(SAMPLE, u.origin) && Normalize(SAMPLE, Marked(u, "")) == Ok(u)
            && StartClashes(SAMPLE, EveryUrl, u) && |Marked(u, [' '])| <= MAX_URL_LENGTH
  {
    var longer := name + [' '];
    var u := SampleUrl("/" + longer, [' ']);
    SampleIsNormal(longer);
    SamplePath(name);
    BlankIsStripped(name);
    BlankFragmentIsDropped(SAMPLE, u, "");
  }

  lemma BlankIsStripped(name: string)
    requires !EndsBlank(name)
    ensures var path := "/" + (name + [' ']); EndsBlank(path) && RStrip(path) == "/" + name && RStrip([' ']) == ""
  {
    var front := "/" + name;
    assert "/" + (name + [' ']) == front + [' '] && !EndsBlank(front);
    RStripAppend(front, [' ']);
  }
}
