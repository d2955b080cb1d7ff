/**
 The depth-bounded breadth-first crawler. The web is made of functions: URL
 normalisation (which may fail), relative-link joining, the URL that the guarded client
 requests for a text it is given (none if it refuses the text), and the answer of the
 site to a requested URL. The crawl never passes the same text to the client twice; two
 texts can stand for one requested URL, and that is then requested twice.
 */
module Crawler {
  import opened Prelude

  datatype Url = Url(text: string, scheme: string, host: string, port: nat)

  datatype Response = FetchError(message: string) | Page(url: string, links: seq<string>)

  // Joining a link to its page fails when the library cannot split the link; the
  // source does not catch that.
  datatype Web = Web(
    normalize: string -> Option<Url>,
    join: (string, string) -> Option<string>,
    request: string -> Option<string>,
    site: string -> Response)

  // One client.get of the crawl: the text it was given, and the depth.
  datatype Call = Call(url: string, depth: nat)

  datatype Entry = Entry(raw: string, depth: nat)

  function Fetch(web: Web, text: string): Response {
    if web.request(text).None? then FetchError("refused") else web.site(web.request(text).value)
  }

  // The URL that is requested when a queued text is taken up.
  function TakenUp(web: Web, raw: string): Option<string> {
    if web.normalize(raw).None? then None else web.request(web.normalize(raw).value.text)
  }

  predicate SameOrigin(a: Url, b: Url) {
    a.scheme == b.scheme && a.host == b.host && a.port == b.port
  }

  // The normalised same-origin link a page offers, if the raw link is one.
  function LinkTarget(web: Web, start: Url, page: string, link: string): Option<string> {
    var joined := web.join(page, link);
    if joined.None? then None
    else
      var url := web.normalize(joined.value);
      if url.Some? && SameOrigin(url.value, start) then Some(url.value.text) else None
  }

  // ------------------------------------------------------------ the link graph

  predicate Offers(web: Web, start: Url, r: Response, m: string) {
    r.Page? && exists i :: 0 <= i < |r.links| && LinkTarget(web, start, r.url, r.links[i]) == Some(m)
  }

  // A hop between requested URLs: the page of u offers a link, and v is requested when
  // that link is taken up.
  ghost predicate Hop(web: Web, start: Url, u: string, v: string) {
    exists m :: Offers(web, start, web.site(u), m) && TakenUp(web, m) == Some(v)
  }

  ghost predicate Hops(web: Web, start: Url, k: nat, v: string) {
    if k == 0 then web.request(start.text) == Some(v)
    else exists u :: Hops(web, start, k - 1, u) && Hop(web, start, u, v)
  }

  // Taking the text up again requests what fetching it requests, or nothing.
  predicate Settles(web: Web, text: string) {
    TakenUp(web, text).Some? ==> TakenUp(web, text) == web.request(text)
  }

  ghost predicate Settled(web: Web, calls: seq<Call>) {
    forall i :: 0 <= i < |calls| ==> Settles(web, calls[i].url)
  }

  function Bound(maxDepth: int): nat {
    if maxDepth < 0 then 0 else maxDepth
  }

  function PagesOf(web: Web, calls: seq<Call>): (pages: seq<Response>)
    ensures |pages| <= |calls|
    ensures forall i :: 0 <= i < |pages| ==> pages[i].Page?
  {
    if calls == [] then []
    else
      var r := Fetch(web, calls[|calls| - 1].url);
      PagesOf(web, calls[..|calls| - 1]) + (if r.Page? then [r] else [])
  }

  // The messages of the calls whose fetch failed.
  function Messages(web: Web, calls: seq<Call>): seq<string> {
    if calls == [] then []
    else
      var r := Fetch(web, calls[|calls| - 1].url);
      Messages(web, calls[..|calls| - 1]) + (if r.FetchError? then [r.message] else [])
  }

  // The errors are those messages in their order, with an error of its own for each queued
  // text that does not normalise in between.
  predicate Interleaved(errors: seq<string>, messages: seq<string>)
    decreases |errors|
  {
    if errors == [] then messages == []
    else
      var n, m := |errors| - 1, |messages| - 1;
      || (errors[n] == INVALID_URL && Interleaved(errors[..n], messages))
      || (messages != [] && errors[n] == messages[m] && Interleaved(errors[..n], messages[..m]))
  }

  const INVALID_URL := "invalid url"

  lemma InterleavedMore(errors: seq<string>, messages: seq<string>, e: string)
    requires Interleaved(errors, messages)
    ensures Interleaved(errors + [e], messages + [e])
    ensures e == INVALID_URL ==> Interleaved(errors + [e], messages)
  {
    assert (errors + [e])[..|errors|] == errors && (messages + [e])[..|messages|] == messages;
  }

  lemma MessagesGrow(web: Web, calls: seq<Call>, c: Call)
    ensures var r := Fetch(web, c.url);
            Messages(web, calls + [c]) == Messages(web, calls) + (if r.FetchError? then [r.message] else [])
  {
    assert (calls + [c])[..|calls|] == calls;
  }

  // The pages are those of the calls that fetched one, in the order of the calls.
  ghost predicate PagesInOrder(web: Web, calls: seq<Call>, pages: seq<Response>) {
    exists kept :: KeptPages(web, calls, pages, kept)
  }

  ghost predicate KeptPages(web: Web, calls: seq<Call>, pages: seq<Response>, kept: seq<nat>) {
    && |kept| == |pages|
    && (forall x :: 0 <= x < |kept| ==> kept[x] < |calls| && pages[x] == Fetch(web, calls[kept[x]].url) && pages[x].Page?)
    && (forall x, y :: 0 <= x < y < |kept| ==> kept[x] < kept[y])
    && (forall i: nat :: i < |calls| && Fetch(web, calls[i].url).Page? ==> i in kept)
  }

  lemma {:induction false} PagesAreInOrder(web: Web, calls: seq<Call>)
    ensures PagesInOrder(web, calls, PagesOf(web, calls))
  {
    if calls == [] {
      assert KeptPages(web, calls, [], []);
    } else {
      var n := |calls| - 1;
      PagesAreInOrder(web, calls[..n]);
      var kept :| KeptPages(web, calls[..n], PagesOf(web, calls[..n]), kept);
      KeptOneMore(web, calls, n, PagesOf(web, calls[..n]), kept);
      assert PagesOf(web, calls[..n]) + [] == PagesOf(web, calls[..n]);
      if Fetch(web, calls[n].url).FetchError? {
        assert KeptPages(web, calls, PagesOf(web, calls), kept);
      } else {
        assert KeptPages(web, calls, PagesOf(web, calls), kept + [n]);
      }
    }
  }

  lemma KeptOneMore(web: Web, calls: seq<Call>, n: nat, pages: seq<Response>, kept: seq<nat>)
    requires |calls| == n + 1 && KeptPages(web, calls[..n], pages, kept)
    ensures var r := Fetch(web, calls[n].url);
            if r.Page? then KeptPages(web, calls, pages + [r], kept + [n]) else KeptPages(web, calls, pages, kept)
  {
    forall i: nat | i < |calls| && Fetch(web, calls[i].url).Page? && i < n
      ensures i in kept
    {
      assert calls[..n][i] == calls[i];
    }
  }

  // A call up to depth k requested v.
  predicate Requested(web: Web, calls: seq<Call>, v: string, k: nat) {
    exists i :: 0 <= i < |calls| && calls[i].depth <= k && web.request(calls[i].url) == Some(v)
  }

  // A call up to depth k was made with this text; a queued entry leads to such a call.
  predicate Called(calls: seq<Call>, text: string, k: nat) {
    exists i :: 0 <= i < |calls| && calls[i].depth <= k && calls[i].url == text
  }

  predicate Queued(web: Web, queue: seq<Entry>, text: string, k: nat) {
    exists i :: 0 <= i < |queue| && queue[i].depth <= k && NormalizesTo(web, queue[i].raw, text)
  }

  predicate NormalizesTo(web: Web, raw: string, text: string) {
    web.normalize(raw).Some? && web.normalize(raw).value.text == text
  }

  // ------------------------------------------------------------ loop invariant

  ghost predicate QueueOk(queue: seq<Entry>, bound: nat) {
    && (forall i, j :: 0 <= i < j < |queue| ==> queue[i].depth <= queue[j].depth)
    && (forall i :: 0 <= i < |queue| ==> queue[i].depth <= queue[0].depth + 1 && queue[i].depth <= bound)
  }

  predicate SeenBy(calls: seq<Call>, j: nat, m: string) {
    exists c :: 0 <= c <= j && c < |calls| && calls[c].url == m
  }

  // A text was offered one level up, by the page of one of the first n calls, and no call
  // up to that one has the text.
  ghost predicate Sourced(web: Web, start: Url, calls: seq<Call>, n: nat, m: string, depth: nat) {
    exists j :: 0 <= j < n && Offered(web, start, calls, j, m, depth)
  }

  ghost predicate Offered(web: Web, start: Url, calls: seq<Call>, j: nat, m: string, depth: nat) {
    && j < |calls| && calls[j].depth + 1 == depth && !SeenBy(calls, j, m)
    && Offers(web, start, Fetch(web, calls[j].url), m)
  }

  ghost predicate CallSourced(web: Web, start: Url, calls: seq<Call>, i: nat) {
    i < |calls| && exists m :: NormalizesTo(web, m, calls[i].url) && Sourced(web, start, calls, i, m, calls[i].depth)
  }

  // Every call but the first has its reason, and so has what is queued after it.
  ghost predicate Reasons(web: Web, start: Url, calls: seq<Call>) {
    forall i :: 0 < i < |calls| ==> CallSourced(web, start, calls, i)
  }

  ghost predicate QueueReasons(web: Web, start: Url, calls: seq<Call>, queue: seq<Entry>) {
    calls != [] ==>
      forall q :: 0 <= q < |queue| ==> Sourced(web, start, calls, |calls|, queue[q].raw, queue[q].depth)
  }

  // Each text is called once, in order of depth.
  ghost predicate CallsOk(start: Url, calls: seq<Call>, bound: nat) {
    && (forall i, j :: 0 <= i < j < |calls| ==> calls[i].url != calls[j].url)
    && (forall i, j :: 0 <= i < j < |calls| ==> calls[i].depth <= calls[j].depth)
    && (forall i :: 0 <= i < |calls| ==> calls[i].depth <= bound)
    && (calls != [] ==> calls[0] == Call(start.text, 0))
  }

  // Whatever lies within k hops is requested before any call deeper than k.
  ghost predicate NearestFirst(web: Web, start: Url, calls: seq<Call>) {
    forall i, k, v :: 0 <= i < |calls| && 0 <= k < calls[i].depth && Hops(web, start, k, v) ==>
      Requested(web, calls[..i], v, k)
  }

  // What becomes of a text m that the page of call i offers.
  ghost predicate Handled(web: Web, calls: seq<Call>, queue: seq<Entry>, i: nat, m: string)
    requires i < |calls|
  {
    || SeenBy(calls, i, m) || web.normalize(m).None?
    || Called(calls, web.normalize(m).value.text, calls[i].depth + 1)
    || Queued(web, queue, web.normalize(m).value.text, calls[i].depth + 1)
  }

  ghost predicate Expanded(web: Web, start: Url, calls: seq<Call>, queue: seq<Entry>, bound: nat) {
    forall i, m :: 0 <= i < |calls| && calls[i].depth < bound && Offers(web, start, Fetch(web, calls[i].url), m) ==>
      Handled(web, calls, queue, i, m)
  }

  // The start is called first.
  predicate Begun(web: Web, start: Url, calls: seq<Call>, queue: seq<Entry>) {
    calls == [] ==> |queue| == 1 && queue[0].depth == 0 && web.normalize(queue[0].raw) == Some(start)
  }

  ghost predicate InOrder(calls: seq<Call>, queue: seq<Entry>) {
    forall i, q :: 0 <= i < |calls| && 0 <= q < |queue| ==> calls[i].depth <= queue[q].depth
  }

  ghost predicate SeenOk(seen: set<string>, calls: seq<Call>) {
    && (forall i :: 0 <= i < |calls| ==> calls[i].url in seen)
    && (forall s :: s in seen ==> exists i :: 0 <= i < |calls| && calls[i].url == s)
  }

  ghost predicate LoopInv(web: Web, start: Url, queue: seq<Entry>, seen: set<string>, calls: seq<Call>, bound: nat) {
    && QueueOk(queue, bound)
    && CallsOk(start, calls, bound)
    && Begun(web, start, calls, queue)
    && Reasons(web, start, calls) && QueueReasons(web, start, calls, queue)
    && Expanded(web, start, calls, queue, bound)
    && (Settled(web, calls) ==> NearestFirst(web, start, calls))
    && SeenOk(seen, calls)
    && InOrder(calls, queue)
  }

  // ------------------------------------------------------------ the search frontier

  lemma HopIsHandled(web: Web, calls: seq<Call>, queue: seq<Entry>, i: nat, m: string, v: string)
    requires i < |calls| && Settled(web, calls) && Handled(web, calls, queue, i, m) && TakenUp(web, m) == Some(v)
    requires forall c :: 0 <= c <= i ==> calls[c].depth <= calls[i].depth
    ensures Requested(web, calls, v, calls[i].depth + 1) || exists q :: 0 <= q < |queue| && queue[q].depth <= calls[i].depth + 1
  {
    var text := web.normalize(m).value.text;
    if SeenBy(calls, i, m) {
      var c :| 0 <= c <= i && c < |calls| && calls[c].url == m;
      assert Settles(web, calls[c].url);
    } else if Called(calls, text, calls[i].depth + 1) {
      var c :| 0 <= c < |calls| && calls[c].depth <= calls[i].depth + 1 && calls[c].url == text;
      assert web.request(calls[c].url) == Some(v);
    } else {
      var q :| 0 <= q < |queue| && queue[q].depth <= calls[i].depth + 1 && NormalizesTo(web, queue[q].raw, text);
    }
  }

  // Whatever lies within k hops was requested, or something no deeper is queued.
  lemma {:induction false} Frontier(web: Web, start: Url, calls: seq<Call>, queue: seq<Entry>, bound: nat, k: nat, v: string)
    requires Settled(web, calls) && CallsOk(start, calls, bound)
    requires Begun(web, start, calls, queue) && Expanded(web, start, calls, queue, bound)
    requires k <= bound && Hops(web, start, k, v)
    ensures Requested(web, calls, v, k) || exists q :: 0 <= q < |queue| && queue[q].depth <= k
  {
    if calls == [] {
      assert queue[0].depth <= k;
    } else if k == 0 {
      assert web.request(calls[0].url) == Some(v);
    } else {
      var u :| Hops(web, start, k - 1, u) && Hop(web, start, u, v);
      Frontier(web, start, calls, queue, bound, k - 1, u);
      if Requested(web, calls, u, k - 1) {
        FrontierStep(web, start, calls, queue, bound, k, u, v);
      }
    }
  }

  lemma FrontierStep(web: Web, start: Url, calls: seq<Call>, queue: seq<Entry>, bound: nat, k: nat, u: string, v: string)
    requires Settled(web, calls) && CallsOk(start, calls, bound) && Expanded(web, start, calls, queue, bound)
    requires 0 < k <= bound && Requested(web, calls, u, k - 1) && Hop(web, start, u, v)
    ensures Requested(web, calls, v, k) || exists q :: 0 <= q < |queue| && queue[q].depth <= k
  {
    var i :| 0 <= i < |calls| && calls[i].depth <= k - 1 && web.request(calls[i].url) == Some(u);
    var m :| Offers(web, start, web.site(u), m) && TakenUp(web, m) == Some(v);
    assert Fetch(web, calls[i].url) == web.site(u);
    HopIsHandled(web, calls, queue, i, m, v);
  }

  // By the time an entry is popped, everything nearer has been requested.
  lemma PopIsNearest(web: Web, start: Url, calls: seq<Call>, queue: seq<Entry>, bound: nat, k: nat, v: string)
    requires Settled(web, calls) && CallsOk(start, calls, bound)
    requires Begun(web, start, calls, queue) && Expanded(web, start, calls, queue, bound)
    requires queue != [] && QueueOk(queue, bound) && k < queue[0].depth && Hops(web, start, k, v)
    ensures Requested(web, calls, v, k)
  {
    Frontier(web, start, calls, queue, bound, k, v);
  }

  // ------------------------------------------------------------ one page's links

  predicate Joinable(web: Web, r: Response) {
    r.Page? ==> forall i :: 0 <= i < |r.links| ==> web.join(r.url, r.links[i]).Some?
  }

  // The unseen same-origin links, one deeper, in their order.
  function NewEntries(web: Web, start: Url, page: string, links: seq<string>, seen: set<string>, depth: nat): seq<Entry> {
    if links == [] then []
    else
      var t := LinkTarget(web, start, page, links[|links| - 1]);
      NewEntries(web, start, page, links[..|links| - 1], seen, depth)
      + if t.Some? && t.value !in seen then [Entry(t.value, depth + 1)] else []
  }

  // What is queued for a fetched URL: nothing when the fetch failed or the bound is
  // reached, and nothing at all is returned when a link cannot be joined.
  function Followed(web: Web, start: Url, u: string, seen: set<string>, depth: nat, maxDepth: int): Option<seq<Entry>> {
    var r := Fetch(web, u);
    if r.FetchError? || depth >= maxDepth then Some([])
    else if !Joinable(web, r) then None
    else Some(NewEntries(web, start, r.url, r.links, seen, depth))
  }

  // The inner loop: links that do not normalise, leave the origin or were seen are
  // dropped; the rest are queued one deeper.
  method LinkEntries(web: Web, start: Url, u: string, seen: set<string>, depth: nat, maxDepth: int)
    returns (added: Option<seq<Entry>>)
    ensures added == Followed(web, start, u, seen, depth, maxDepth)
  {
    var page := Fetch(web, u);
    if page.FetchError? || depth >= maxDepth {
      return Some([]);
    }
    var entries: seq<Entry> := [];
    for i := 0 to |page.links|
      invariant forall k :: 0 <= k < i ==> web.join(page.url, page.links[k]).Some?
      invariant entries == NewEntries(web, start, page.url, page.links[..i], seen, depth)
    {
      assert page.links[..i + 1][..i] == page.links[..i];
      var joined := web.join(page.url, page.links[i]);
      if joined.None? {
        return None;
      }
      var url := web.normalize(joined.value);
      if url.None? || !SameOrigin(url.value, start) {
        continue;
      }
      if url.value.text !in seen {
        entries := entries + [Entry(url.value.text, depth + 1)];
      }
    }
    assert page.links[..|page.links|] == page.links;
    return Some(entries);
  }

  // The queued entries are the page's offers that were not seen, and no others.
  lemma {:induction false} NewEntriesAreOffers(web: Web, start: Url, page: string, links: seq<string>,
                                               seen: set<string>, depth: nat, e: Entry)
    ensures e in NewEntries(web, start, page, links, seen, depth) <==>
            && e.depth == depth + 1 && e.raw !in seen
            && exists i :: 0 <= i < |links| && LinkTarget(web, start, page, links[i]) == Some(e.raw)
  {
    if links != [] {
      var n := |links| - 1;
      NewEntriesAreOffers(web, start, page, links[..n], seen, depth, e);
      if i :| 0 <= i < |links| && LinkTarget(web, start, page, links[i]) == Some(e.raw) {
        assert i < n ==> links[..n][i] == links[i];
      }
    }
  }

  // ------------------------------------------------------------ the loop's steps

  lemma SeenByGrows(calls: seq<Call>, calls': seq<Call>, j: nat, m: string)
    requires calls <= calls' && j < |calls|
    ensures SeenBy(calls', j, m) <==> SeenBy(calls, j, m)
  {
    if c :| 0 <= c <= j && c < |calls| && calls[c].url == m {
      assert calls'[c].url == m;
    }
    if c :| 0 <= c <= j && c < |calls'| && calls'[c].url == m {
      assert calls[c].url == m;
    }
  }

  // The text of a later call is the normal form of a text that some page offers, one level
  // up and before any call of that text.
  lemma CallHasOffer(web: Web, start: Url, calls: seq<Call>, i: nat) returns (j: nat, m: string)
    requires Reasons(web, start, calls) && 0 < i < |calls|
    ensures j < i && calls[j].depth + 1 == calls[i].depth && !SeenBy(calls, j, m)
    ensures web.request(calls[j].url).Some? && Offers(web, start, web.site(web.request(calls[j].url).value), m)
    ensures NormalizesTo(web, m, calls[i].url)
  {
    assert CallSourced(web, start, calls, i);
    m :| NormalizesTo(web, m, calls[i].url) && Sourced(web, start, calls, i, m, calls[i].depth);
    j :| 0 <= j < i && Offered(web, start, calls, j, m, calls[i].depth);
  }

  // What a call requests lies as many hops away as the call is deep.
  lemma {:induction false} CallIsHops(web: Web, start: Url, calls: seq<Call>, i: nat, v: string)
    requires calls != [] && calls[0] == Call(start.text, 0) && Reasons(web, start, calls)
    requires i < |calls| && web.request(calls[i].url) == Some(v)
    ensures Hops(web, start, calls[i].depth, v)
  {
    if i > 0 {
      var j, m := CallHasOffer(web, start, calls, i);
      var u := web.request(calls[j].url).value;
      CallIsHops(web, start, calls, j, u);
      NextHop(web, start, calls[j].depth, u, m, v);
    }
  }

  lemma NextHop(web: Web, start: Url, k: nat, u: string, m: string, v: string)
    requires Hops(web, start, k, u) && Offers(web, start, web.site(u), m) && TakenUp(web, m) == Some(v)
    ensures Hops(web, start, k + 1, v)
  {
    assert Hop(web, start, u, v);
  }

  lemma SourcedGrows(web: Web, start: Url, calls: seq<Call>, calls': seq<Call>, n: nat, n': nat, m: string, depth: nat)
    requires calls <= calls' && n <= n' && Sourced(web, start, calls, n, m, depth)
    ensures Sourced(web, start, calls', n', m, depth)
  {
    var j :| 0 <= j < n && Offered(web, start, calls, j, m, depth);
    SeenByGrows(calls, calls', j, m);
    assert Offered(web, start, calls', j, m, depth);
  }

  // Dropping the head is harmless once its text is called at its depth, or when it does
  // not normalise.
  lemma HandledAfterPop(web: Web, calls: seq<Call>, calls': seq<Call>, queue: seq<Entry>, added: seq<Entry>, i: nat, m: string)
    requires queue != [] && calls <= calls' && i < |calls| && Handled(web, calls, queue, i, m)
    requires web.normalize(queue[0].raw).Some? ==> Called(calls', web.normalize(queue[0].raw).value.text, queue[0].depth)
    ensures Handled(web, calls', queue[1..] + added, i, m)
  {
    SeenByGrows(calls, calls', i, m);
    if !SeenBy(calls, i, m) && web.normalize(m).Some? {
      var text, k := web.normalize(m).value.text, calls[i].depth + 1;
      if Called(calls, text, k) {
        var c :| 0 <= c < |calls| && calls[c].depth <= k && calls[c].url == text;
        assert calls'[c] == calls[c];
      } else {
        var q :| 0 <= q < |queue| && queue[q].depth <= k && NormalizesTo(web, queue[q].raw, text);
        if q > 0 {
          assert (queue[1..] + added)[q - 1] == queue[q];
        }
      }
    }
  }

  lemma ExpandedAfterDrop(web: Web, start: Url, calls: seq<Call>, queue: seq<Entry>, bound: nat)
    requires queue != [] && Expanded(web, start, calls, queue, bound)
    requires web.normalize(queue[0].raw).Some? ==> Called(calls, web.normalize(queue[0].raw).value.text, queue[0].depth)
    ensures Expanded(web, start, calls, queue[1..], bound)
  {
    forall i, m | 0 <= i < |calls| && calls[i].depth < bound && Offers(web, start, Fetch(web, calls[i].url), m)
      ensures Handled(web, calls, queue[1..], i, m)
    {
      HandledAfterPop(web, calls, calls, queue, [], i, m);
      assert queue[1..] + [] == queue[1..];
    }
  }

  lemma DropHead(web: Web, start: Url, queue: seq<Entry>, seen: set<string>, calls: seq<Call>, bound: nat)
    requires LoopInv(web, start, queue, seen, calls, bound) && queue != []
    requires web.normalize(queue[0].raw).Some? ==> web.normalize(queue[0].raw).value.text in seen
    ensures LoopInv(web, start, queue[1..], seen, calls, bound)
  {
    if web.normalize(queue[0].raw).Some? {
      var u := web.normalize(queue[0].raw).value.text;
      var i :| 0 <= i < |calls| && calls[i].url == u;
      assert Called(calls, u, queue[0].depth);
    }
    ExpandedAfterDrop(web, start, calls, queue, bound);
    TailIsFine(web, start, calls, queue, bound);
  }

  lemma TailIsFine(web: Web, start: Url, calls: seq<Call>, queue: seq<Entry>, bound: nat)
    requires queue != [] && QueueOk(queue, bound) && InOrder(calls, queue) && QueueReasons(web, start, calls, queue)
    ensures QueueOk(queue[1..], bound) && InOrder(calls, queue[1..]) && QueueReasons(web, start, calls, queue[1..])
  {
    forall q | 0 <= q < |queue[1..]|
      ensures queue[1..][q] == queue[q + 1]
    {
    }
  }

  // What the loop queues for the head: nothing when its fetch fails or it is
  // at the depth bound, and its unseen same-origin links otherwise.
  ghost predicate Gathered(web: Web, start: Url, u: string, seen: set<string>, depth: nat, bound: nat, added: seq<Entry>) {
    if Fetch(web, u).FetchError? || depth >= bound then added == []
    else
      && (forall i :: 0 <= i < |added| ==>
            added[i].depth == depth + 1 && added[i].raw !in seen && Offers(web, start, Fetch(web, u), added[i].raw))
      && (forall m :: Offers(web, start, Fetch(web, u), m) && m !in seen ==> Entry(m, depth + 1) in added)
  }

  lemma CallHead(web: Web, start: Url, queue: seq<Entry>, seen: set<string>, calls: seq<Call>, bound: nat, u: string,
                 added: seq<Entry>)
    requires LoopInv(web, start, queue, seen, calls, bound) && queue != []
    requires NormalizesTo(web, queue[0].raw, u) && u !in seen
    requires Gathered(web, start, u, seen + {u}, queue[0].depth, bound, added)
    ensures LoopInv(web, start, queue[1..] + added, seen + {u}, calls + [Call(u, queue[0].depth)], bound)
  {
    var depth := queue[0].depth;
    var call := Call(u, depth);
    SeenAfterCall(seen, calls, u, depth);
    QueueAfterCall(web, start, queue, bound, u, added, seen + {u});
    OrderAfterCall(web, start, queue, calls, u, added, seen + {u}, bound);
    CallsAfterCall(web, start, queue, seen, calls, bound, u);
    ReasonsAfterCall(web, start, queue, calls, u);
    QueueReasonsAfterCall(web, start, queue, seen, calls, bound, u, added);
    ExpandedAfterCall(web, start, queue, seen, calls, bound, u, added);
    NearestIfSettled(web, start, queue, seen, calls, bound, call);
  }

  lemma NearestIfSettled(web: Web, start: Url, queue: seq<Entry>, seen: set<string>, calls: seq<Call>, bound: nat, call: Call)
    requires LoopInv(web, start, queue, seen, calls, bound) && queue != [] && call.depth == queue[0].depth
    ensures Settled(web, calls + [call]) ==> NearestFirst(web, start, calls + [call])
  {
    if Settled(web, calls + [call]) {
      SettledBefore(web, calls, call);
      NearestAfterCall(web, start, queue, calls, bound, call);
    }
  }

  lemma SeenAfterCall(seen: set<string>, calls: seq<Call>, u: string, depth: nat)
    requires SeenOk(seen, calls)
    ensures SeenOk(seen + {u}, calls + [Call(u, depth)])
  {
    var calls' := calls + [Call(u, depth)];
    forall s | s in seen + {u} ensures exists i :: 0 <= i < |calls'| && calls'[i].url == s {
      if s == u {
        assert calls'[|calls|].url == s;
      } else {
        var i :| 0 <= i < |calls| && calls[i].url == s;
        assert calls'[i].url == s;
      }
    }
  }

  lemma QueueAfterCall(web: Web, start: Url, queue: seq<Entry>, bound: nat, u: string, added: seq<Entry>, seen: set<string>)
    requires queue != [] && QueueOk(queue, bound) && Gathered(web, start, u, seen, queue[0].depth, bound, added)
    ensures QueueOk(queue[1..] + added, bound)
  {
  }

  lemma OrderAfterCall(web: Web, start: Url, queue: seq<Entry>, calls: seq<Call>, u: string, added: seq<Entry>,
                       seen: set<string>, bound: nat)
    requires queue != [] && QueueOk(queue, bound) && InOrder(calls, queue)
    requires Gathered(web, start, u, seen, queue[0].depth, bound, added)
    ensures InOrder(calls + [Call(u, queue[0].depth)], queue[1..] + added)
  {
    var queue' := queue[1..] + added;
    forall q | 0 <= q < |queue'|
      ensures queue[0].depth <= queue'[q].depth
    {
      assert q < |queue| - 1 ==> queue'[q] == queue[q + 1];
    }
  }

  lemma CallsAfterCall(web: Web, start: Url, queue: seq<Entry>, seen: set<string>, calls: seq<Call>, bound: nat, u: string)
    requires QueueOk(queue, bound) && CallsOk(start, calls, bound) && Begun(web, start, calls, queue)
    requires queue != [] && SeenOk(seen, calls) && u !in seen && NormalizesTo(web, queue[0].raw, u)
    requires InOrder(calls, queue)
    ensures CallsOk(start, calls + [Call(u, queue[0].depth)], bound)
  {
  }

  lemma ReasonsAfterCall(web: Web, start: Url, queue: seq<Entry>, calls: seq<Call>, u: string)
    requires Reasons(web, start, calls) && QueueReasons(web, start, calls, queue)
    requires queue != [] && NormalizesTo(web, queue[0].raw, u)
    ensures Reasons(web, start, calls + [Call(u, queue[0].depth)])
  {
    var call := Call(u, queue[0].depth);
    var calls' := calls + [call];
    forall i | 0 < i < |calls'|
      ensures CallSourced(web, start, calls', i)
    {
      if i < |calls| {
        assert calls'[i] == calls[i] && CallSourced(web, start, calls, i);
        var m :| NormalizesTo(web, m, calls[i].url) && Sourced(web, start, calls, i, m, calls[i].depth);
        SourcedGrows(web, start, calls, calls', i, i, m, calls[i].depth);
      } else {
        assert calls'[i] == call;
        SourcedGrows(web, start, calls, calls', i, i, queue[0].raw, call.depth);
      }
    }
  }

  lemma QueueReasonsAfterCall(web: Web, start: Url, queue: seq<Entry>, seen: set<string>, calls: seq<Call>, bound: nat, u: string,
                       added: seq<Entry>)
    requires queue != [] && QueueReasons(web, start, calls, queue) && Begun(web, start, calls, queue)
    requires SeenOk(seen + {u}, calls + [Call(u, queue[0].depth)])
    requires Gathered(web, start, u, seen + {u}, queue[0].depth, bound, added)
    ensures QueueReasons(web, start, calls + [Call(u, queue[0].depth)], queue[1..] + added)
  {
    var call := Call(u, queue[0].depth);
    var calls', queue' := calls + [call], queue[1..] + added;
    forall q | 0 <= q < |queue'|
      ensures Sourced(web, start, calls', |calls'|, queue'[q].raw, queue'[q].depth)
    {
      if q < |queue| - 1 {
        assert queue'[q] == queue[q + 1];
        SourcedGrows(web, start, calls, calls', |calls|, |calls'|, queue'[q].raw, queue'[q].depth);
      } else {
        assert queue'[q] == added[q - (|queue| - 1)];
        assert Offered(web, start, calls', |calls|, queue'[q].raw, queue'[q].depth);
      }
    }
  }

  lemma ExpandedAfterCall(web: Web, start: Url, queue: seq<Entry>, seen: set<string>, calls: seq<Call>, bound: nat,
                          u: string, added: seq<Entry>)
    requires queue != [] && Expanded(web, start, calls, queue, bound) && NormalizesTo(web, queue[0].raw, u)
    requires SeenOk(seen + {u}, calls + [Call(u, queue[0].depth)])
    requires Gathered(web, start, u, seen + {u}, queue[0].depth, bound, added)
    ensures Expanded(web, start, calls + [Call(u, queue[0].depth)], queue[1..] + added, bound)
  {
    var depth := queue[0].depth;
    var calls', queue' := calls + [Call(u, depth)], queue[1..] + added;
    assert calls'[|calls|] == Call(u, depth) && Called(calls', u, depth);
    forall i, m | 0 <= i < |calls'| && calls'[i].depth < bound && Offers(web, start, Fetch(web, calls'[i].url), m)
      ensures Handled(web, calls', queue', i, m)
    {
      if i < |calls| {
        assert Handled(web, calls, queue, i, m);
        HandledAfterPop(web, calls, calls', queue, added, i, m);
      } else if m in seen + {u} {
        var c :| 0 <= c < |calls'| && calls'[c].url == m;
        assert SeenBy(calls', i, m);
      } else {
        var q :| 0 <= q < |added| && added[q] == Entry(m, depth + 1);
        assert queue'[|queue| - 1 + q] == Entry(m, depth + 1);
      }
    }
  }

  lemma NearestAfterCall(web: Web, start: Url, queue: seq<Entry>, calls: seq<Call>, bound: nat, call: Call)
    requires Settled(web, calls) && CallsOk(start, calls, bound) && NearestFirst(web, start, calls)
    requires Begun(web, start, calls, queue) && Expanded(web, start, calls, queue, bound)
    requires queue != [] && QueueOk(queue, bound) && call.depth == queue[0].depth
    ensures NearestFirst(web, start, calls + [call])
  {
    var calls' := calls + [call];
    forall i, k, v | 0 <= i < |calls'| && 0 <= k < calls'[i].depth && Hops(web, start, k, v)
      ensures Requested(web, calls'[..i], v, k)
    {
      if i < |calls| {
        assert calls'[..i] == calls[..i];
      } else {
        assert calls'[..i] == calls;
        PopIsNearest(web, start, calls, queue, bound, k, v);
      }
    }
  }

  lemma SettledBefore(web: Web, calls: seq<Call>, c: Call)
    requires Settled(web, calls + [c])
    ensures Settled(web, calls)
  {
    forall i | 0 <= i < |calls| ensures Settles(web, calls[i].url) {
      assert (calls + [c])[i] == calls[i];
    }
  }

  lemma StartInv(web: Web, startUrl: string, bound: nat)
    requires web.normalize(startUrl).Some?
    ensures LoopInv(web, web.normalize(startUrl).value, [Entry(startUrl, 0)], {}, [], bound)
  {
  }

  lemma PagesGrow(web: Web, calls: seq<Call>, c: Call)
    ensures PagesOf(web, calls + [c]) == PagesOf(web, calls) + (if Fetch(web, c.url).Page? then [Fetch(web, c.url)] else [])
  {
    assert (calls + [c])[..|calls|] == calls;
  }

  lemma FollowedIsGathered(web: Web, start: Url, u: string, seen: set<string>, depth: nat, maxDepth: int)
    requires Followed(web, start, u, seen, depth, maxDepth).Some?
    requires depth <= Bound(maxDepth)
    ensures Gathered(web, start, u, seen, depth, Bound(maxDepth), Followed(web, start, u, seen, depth, maxDepth).value)
  {
    var r := Fetch(web, u);
    var added := Followed(web, start, u, seen, depth, maxDepth).value;
    if r.Page? && depth < maxDepth {
      forall i | 0 <= i < |added|
        ensures added[i].depth == depth + 1 && added[i].raw !in seen && Offers(web, start, r, added[i].raw)
      {
        NewEntriesAreOffers(web, start, r.url, r.links, seen, depth, added[i]);
      }
      forall m | Offers(web, start, r, m) && m !in seen
        ensures Entry(m, depth + 1) in added
      {
        NewEntriesAreOffers(web, start, r.url, r.links, seen, depth, Entry(m, depth + 1));
      }
    }
  }

  // ------------------------------------------------------------ the crawl

  // raised: a link that cannot be joined has ended the crawl.
  datatype State = State(queue: seq<Entry>, seen: set<string>, calls: seq<Call>, raised: bool)

  predicate Done(web: Web, st: State, pageCap: int) {
    st.raised || st.queue == [] || |PagesOf(web, st.calls)| >= pageCap
  }

  // One turn of the loop.
  function Turn(web: Web, start: Url, st: State, maxDepth: int): State
    requires st.queue != []
  {
    var head := st.queue[0];
    var url := web.normalize(head.raw);
    if url.None? || url.value.text in st.seen then st.(queue := st.queue[1..])
    else
      var u := url.value.text;
      var seen := st.seen + {u};
      var calls := st.calls + [Call(u, head.depth)];
      var added := Followed(web, start, u, seen, head.depth, maxDepth);
      if added.None? then State(st.queue[1..], seen, calls, true)
      else State(st.queue[1..] + added.value, seen, calls, false)
  }

  // A failing fetch queues nothing, so every turn brings a page or shortens the queue.
  lemma TurnProgress(web: Web, start: Url, st: State, maxDepth: int)
    requires st.queue != [] && !st.raised
    ensures var next := Turn(web, start, st, maxDepth);
            || |PagesOf(web, next.calls)| > |PagesOf(web, st.calls)|
            || (|PagesOf(web, next.calls)| == |PagesOf(web, st.calls)| && |next.queue| < |st.queue|)
  {
    var url := web.normalize(st.queue[0].raw);
    if url.Some? && url.value.text !in st.seen {
      PagesGrow(web, st.calls, Call(url.value.text, st.queue[0].depth));
    }
  }

  function CrawlFrom(web: Web, start: Url, st: State, maxDepth: int, pageCap: int): State
    decreases pageCap - |PagesOf(web, st.calls)|, |st.queue|
  {
    if Done(web, st, pageCap) then st
    else
      TurnProgress(web, start, st, maxDepth);
      CrawlFrom(web, start, Turn(web, start, st, maxDepth), maxDepth, pageCap)
  }

  function Opening(startUrl: string): State {
    State([Entry(startUrl, 0)], {}, [], false)
  }

  function Crawl(web: Web, startUrl: string, maxDepth: int, pageCap: int): State
    requires web.normalize(startUrl).Some?
  {
    CrawlFrom(web, web.normalize(startUrl).value, Opening(startUrl), maxDepth, pageCap)
  }

  // What every turn keeps holds at the end.
  lemma {:induction false} CrawlKeeps(web: Web, start: Url, st: State, maxDepth: int, pageCap: int, inv: State -> bool)
    requires inv(st)
    requires forall s: State :: inv(s) && !Done(web, s, pageCap) ==> inv(Turn(web, start, s, maxDepth))
    ensures var end := CrawlFrom(web, start, st, maxDepth, pageCap); inv(end) && Done(web, end, pageCap)
    decreases pageCap - |PagesOf(web, st.calls)|, |st.queue|
  {
    if !Done(web, st, pageCap) {
      TurnProgress(web, start, st, maxDepth);
      CrawlKeeps(web, start, Turn(web, start, st, maxDepth), maxDepth, pageCap, inv);
    }
  }

  ghost predicate Sound(web: Web, start: Url, calls: seq<Call>, bound: nat) {
    CallsOk(start, calls, bound) && Reasons(web, start, calls) && (Settled(web, calls) ==> NearestFirst(web, start, calls))
  }

  ghost predicate StateOk(web: Web, start: Url, st: State, maxDepth: int, pageCap: int) {
    && |PagesOf(web, st.calls)| <= Bound(pageCap)
    && Sound(web, start, st.calls, Bound(maxDepth))
    && (st.raised ==> st.calls != [] && !Joinable(web, Fetch(web, st.calls[|st.calls| - 1].url)))
    && (!st.raised ==> LoopInv(web, start, st.queue, st.seen, st.calls, Bound(maxDepth)))
  }

  lemma DropTurnOk(web: Web, start: Url, st: State, maxDepth: int, pageCap: int)
    requires StateOk(web, start, st, maxDepth, pageCap) && !Done(web, st, pageCap)
    requires web.normalize(st.queue[0].raw).Some? ==> web.normalize(st.queue[0].raw).value.text in st.seen
    ensures StateOk(web, start, st.(queue := st.queue[1..]), maxDepth, pageCap)
  {
    DropHead(web, start, st.queue, st.seen, st.calls, Bound(maxDepth));
  }

  lemma CallIsSound(web: Web, start: Url, st: State, maxDepth: int, pageCap: int, u: string)
    requires StateOk(web, start, st, maxDepth, pageCap) && !Done(web, st, pageCap)
    requires NormalizesTo(web, st.queue[0].raw, u) && u !in st.seen
    ensures Sound(web, start, st.calls + [Call(u, st.queue[0].depth)], Bound(maxDepth))
    ensures |PagesOf(web, st.calls + [Call(u, st.queue[0].depth)])| <= Bound(pageCap)
  {
    var call := Call(u, st.queue[0].depth);
    PagesGrow(web, st.calls, call);
    CallsAfterCall(web, start, st.queue, st.seen, st.calls, Bound(maxDepth), u);
    ReasonsAfterCall(web, start, st.queue, st.calls, u);
    NearestIfSettled(web, start, st.queue, st.seen, st.calls, Bound(maxDepth), call);
  }

  lemma CallTurnOk(web: Web, start: Url, st: State, maxDepth: int, pageCap: int, u: string, added: seq<Entry>)
    requires StateOk(web, start, st, maxDepth, pageCap) && !Done(web, st, pageCap)
    requires NormalizesTo(web, st.queue[0].raw, u) && u !in st.seen
    requires Followed(web, start, u, st.seen + {u}, st.queue[0].depth, maxDepth) == Some(added)
    ensures LoopInv(web, start, st.queue[1..] + added, st.seen + {u}, st.calls + [Call(u, st.queue[0].depth)],
                    Bound(maxDepth))
  {
    assert st.queue[0].depth <= Bound(maxDepth);
    FollowedIsGathered(web, start, u, st.seen + {u}, st.queue[0].depth, maxDepth);
    CallHead(web, start, st.queue, st.seen, st.calls, Bound(maxDepth), u, added);
  }

  lemma CallingTurnOk(web: Web, start: Url, st: State, maxDepth: int, pageCap: int, u: string)
    requires StateOk(web, start, st, maxDepth, pageCap) && !Done(web, st, pageCap)
    requires NormalizesTo(web, st.queue[0].raw, u) && u !in st.seen
    ensures var added := Followed(web, start, u, st.seen + {u}, st.queue[0].depth, maxDepth);
            var calls := st.calls + [Call(u, st.queue[0].depth)];
            StateOk(web, start, State(if added.None? then st.queue[1..] else st.queue[1..] + added.value,
                                      st.seen + {u}, calls, added.None?), maxDepth, pageCap)
  {
    CallIsSound(web, start, st, maxDepth, pageCap, u);
    var added := Followed(web, start, u, st.seen + {u}, st.queue[0].depth, maxDepth);
    if added.Some? {
      CallTurnOk(web, start, st, maxDepth, pageCap, u, added.value);
    }
  }

  lemma TurnOk(web: Web, start: Url, st: State, maxDepth: int, pageCap: int)
    requires StateOk(web, start, st, maxDepth, pageCap) && !Done(web, st, pageCap)
    ensures StateOk(web, start, Turn(web, start, st, maxDepth), maxDepth, pageCap)
  {
    var url := web.normalize(st.queue[0].raw);
    if url.None? || url.value.text in st.seen {
      DropTurnOk(web, start, st, maxDepth, pageCap);
    } else {
      CallingTurnOk(web, start, st, maxDepth, pageCap, url.value.text);
    }
  }

  // ------------------------------------------------------------ the order of the links

  // A link of a fetched page: the number of the call that fetched the page, and where it
  // stands on the page.
  datatype Spot = Spot(call: nat, link: nat)

  predicate Before(s: Spot, t: Spot) {
    s.call < t.call || (s.call == t.call && s.link < t.link)
  }

  // The same-origin link at a spot, if no call up to that of its page has its text.
  function Unseen(web: Web, start: Url, calls: seq<Call>, s: Spot): Option<string>
    requires s.call < |calls|
  {
    var r := Fetch(web, calls[s.call].url);
    if r.FetchError? || s.link >= |r.links| then None
    else
      var m := LinkTarget(web, start, r.url, r.links[s.link]);
      if m.Some? && SeenBy(calls, s.call, m.value) then None else m
  }

  // The text that is called for the link at a spot, unless it was called before.
  function TextAt(web: Web, start: Url, calls: seq<Call>, s: Spot): Option<string>
    requires s.call < |calls|
  {
    var m := Unseen(web, start, calls, s);
    if m.None? || web.normalize(m.value).None? then None else Some(web.normalize(m.value).value.text)
  }

  predicate CalledBefore(calls: seq<Call>, j: nat, text: string) {
    exists c :: 0 <= c < j && c < |calls| && calls[c].url == text
  }

  // Call j is that of the link at s, and every link before s was dropped or called earlier.
  ghost predicate Takes(web: Web, start: Url, calls: seq<Call>, j: nat, s: Spot) {
    && s.call < j < |calls|
    && TextAt(web, start, calls, s) == Some(calls[j].url) && calls[j].depth == calls[s.call].depth + 1
    && forall t :: Before(t, s) && TextAt(web, start, calls, t).Some? ==>
         CalledBefore(calls, j, TextAt(web, start, calls, t).value)
  }

  ghost predicate LinkOrder(web: Web, start: Url, calls: seq<Call>) {
    forall j :: 0 < j < |calls| ==> HasTurn(web, start, calls, j)
  }

  ghost predicate HasTurn(web: Web, start: Url, calls: seq<Call>, j: nat) {
    exists s :: Takes(web, start, calls, j, s)
  }

  // The crawl of a page ends at a link that cannot be joined.
  predicate Blocked(web: Web, call: Call, maxDepth: int) {
    call.depth < maxDepth && !Joinable(web, Fetch(web, call.url))
  }

  ghost predicate BelowCap(web: Web, calls: seq<Call>, pageCap: int) {
    forall i :: 0 <= i < |calls| ==> |PagesOf(web, calls[..i])| < pageCap
  }

  predicate NoneBlocked(web: Web, calls: seq<Call>, n: int, maxDepth: int) {
    forall i :: 0 <= i < n && i < |calls| ==> !Blocked(web, calls[i], maxDepth)
  }

  // Up to the end: every call has its turn in the order of the links, and neither the cap
  // nor a link that cannot be joined came before it.
  ghost predicate Orderly(web: Web, start: Url, calls: seq<Call>, maxDepth: int, pageCap: int) {
    && CallsOk(start, calls, Bound(maxDepth))
    && LinkOrder(web, start, calls)
    && BelowCap(web, calls, pageCap)
    && NoneBlocked(web, calls, |calls| - 1, maxDepth)
  }

  // The end: the cap, a link that cannot be joined, or no link left.
  ghost predicate Ended(web: Web, start: Url, calls: seq<Call>, maxDepth: int, pageCap: int) {
    || |PagesOf(web, calls)| >= pageCap
    || (calls != [] && Blocked(web, calls[|calls| - 1], maxDepth))
    || (calls != [] && NoneLeft(web, start, calls, Bound(maxDepth)))
  }

  // A link that is still to be called.
  predicate Left(web: Web, start: Url, calls: seq<Call>, bound: nat, t: Spot) {
    && t.call < |calls| && calls[t.call].depth < bound
    && TextAt(web, start, calls, t).Some? && !CalledBefore(calls, |calls|, TextAt(web, start, calls, t).value)
  }

  ghost predicate NoneLeft(web: Web, start: Url, calls: seq<Call>, bound: nat) {
    forall t :: !Left(web, start, calls, bound, t)
  }

  // The link of a call is the least that has its text, and later calls have later links.
  lemma LaterCallsHaveLaterLinks(web: Web, start: Url, calls: seq<Call>, bound: nat, i: nat, s: Spot, j: nat, t: Spot)
    requires CallsOk(start, calls, bound) && Takes(web, start, calls, i, s) && Takes(web, start, calls, j, t)
    ensures i < j <==> Before(s, t)
    ensures forall r :: Before(r, s) ==> TextAt(web, start, calls, r) != Some(calls[i].url)
  {
    assert s.call < t.call || s.call == t.call || t.call < s.call;
    if Before(t, s) {
      assert CalledBefore(calls, i, calls[j].url);
    }
    if Before(s, t) {
      assert CalledBefore(calls, j, calls[i].url);
    }
    assert !CalledBefore(calls, i, calls[i].url);
  }

  // Nothing that is called later changes what stands at a spot.
  lemma SpotsStay(web: Web, start: Url, calls: seq<Call>, calls': seq<Call>, s: Spot)
    requires calls <= calls' && s.call < |calls|
    ensures Unseen(web, start, calls', s) == Unseen(web, start, calls, s)
  {
    var r := Fetch(web, calls[s.call].url);
    if r.Page? && s.link < |r.links| {
      var m := LinkTarget(web, start, r.url, r.links[s.link]);
      if m.Some? {
        SeenByGrows(calls, calls', s.call, m.value);
      }
    }
  }

  // Orderly calls cannot part: of the links at which two would, the earlier was called.
  lemma SameNextCall(web: Web, start: Url, a: seq<Call>, b: seq<Call>, bound: nat, n: nat)
    requires 0 < n < |a| && n < |b| && a[..n] == b[..n]
    requires CallsOk(start, a, bound) && CallsOk(start, b, bound)
    requires LinkOrder(web, start, a) && LinkOrder(web, start, b)
    ensures a[n] == b[n]
  {
    assert HasTurn(web, start, a, n) && HasTurn(web, start, b, n);
    var s :| Takes(web, start, a, n, s);
    var t :| Takes(web, start, b, n, t);
    SpotsAgree(web, start, a, b, n, s);
    SpotsAgree(web, start, a, b, n, t);
    NotEarlier(web, start, a, b, bound, n, s, t);
    NotEarlier(web, start, b, a, bound, n, t, s);
    assert s == t;
  }

  lemma SpotsAgree(web: Web, start: Url, a: seq<Call>, b: seq<Call>, n: nat, s: Spot)
    requires n <= |a| && n <= |b| && a[..n] == b[..n] && s.call < n
    ensures Unseen(web, start, a, s) == Unseen(web, start, b, s) && a[s.call] == b[s.call]
  {
    SpotsStay(web, start, a[..n], a, s);
    SpotsStay(web, start, b[..n], b, s);
  }

  lemma NotEarlier(web: Web, start: Url, a: seq<Call>, b: seq<Call>, bound: nat, n: nat, s: Spot, t: Spot)
    requires n < |a| && n < |b| && a[..n] == b[..n] && CallsOk(start, a, bound)
    requires Takes(web, start, a, n, s) && Takes(web, start, b, n, t)
    requires Unseen(web, start, a, s) == Unseen(web, start, b, s)
    ensures !Before(s, t)
  {
    forall c | 0 <= c < n
      ensures a[c] == b[c]
    {
      assert a[..n][c] == b[..n][c];
    }
    assert !CalledBefore(b, n, a[n].url);
  }

  lemma {:induction false} SameStart(web: Web, start: Url, a: seq<Call>, b: seq<Call>, bound: nat, n: nat)
    requires n <= |a| && n <= |b|
    requires CallsOk(start, a, bound) && CallsOk(start, b, bound)
    requires LinkOrder(web, start, a) && LinkOrder(web, start, b)
    ensures a[..n] == b[..n]
  {
    if n > 0 {
      SameStart(web, start, a, b, bound, n - 1);
      if n > 1 {
        SameNextCall(web, start, a, b, bound, n - 1);
      }
      assert a[..n] == a[..n - 1] + [a[n - 1]] && b[..n] == b[..n - 1] + [b[n - 1]];
    }
  }

  lemma NextIsLeft(web: Web, start: Url, a: seq<Call>, b: seq<Call>, bound: nat)
    requires CallsOk(start, b, bound) && LinkOrder(web, start, b)
    requires 0 < |a| < |b| && a == b[..|a|]
    ensures !NoneLeft(web, start, a, bound)
  {
    assert HasTurn(web, start, b, |a|);
    var s :| Takes(web, start, b, |a|, s);
    SpotsStay(web, start, a, b, s);
    assert a[s.call] == b[s.call];
    assert Left(web, start, a, bound, s);
  }

  lemma EndedIsNotAPrefix(web: Web, start: Url, a: seq<Call>, b: seq<Call>, maxDepth: int, pageCap: int)
    requires Ended(web, start, a, maxDepth, pageCap) && Orderly(web, start, b, maxDepth, pageCap)
    requires |a| <= |b| && a == b[..|a|]
    ensures a == b
  {
    assert |a| < |b| ==> |PagesOf(web, b[..|a|])| < pageCap;
    assert a != [] ==> a[|a| - 1] == b[|a| - 1];
    if a != [] && |a| < |b| {
      NextIsLeft(web, start, a, b, Bound(maxDepth));
    }
  }

  // The calls of a crawl are determined by the site, the bound and the cap.
  lemma OrderlyCallsAreUnique(web: Web, start: Url, a: seq<Call>, b: seq<Call>, maxDepth: int, pageCap: int)
    requires Orderly(web, start, a, maxDepth, pageCap) && Ended(web, start, a, maxDepth, pageCap)
    requires Orderly(web, start, b, maxDepth, pageCap) && Ended(web, start, b, maxDepth, pageCap)
    ensures a == b
  {
    var n := Min(|a|, |b|);
    SameStart(web, start, a, b, Bound(maxDepth), n);
    if |a| <= |b| {
      assert a[..n] == a;
      EndedIsNotAPrefix(web, start, a, b, maxDepth, pageCap);
    } else {
      assert b[..n] == b;
      EndedIsNotAPrefix(web, start, b, a, maxDepth, pageCap);
    }
  }

  // ------------------------------------------------------------ the crawl keeps the order

  // A queued entry and the link it stands for.
  predicate SpotFits(web: Web, start: Url, calls: seq<Call>, e: Entry, s: Spot) {
    s.call < |calls| && Unseen(web, start, calls, s) == Some(e.raw) && calls[s.call].depth + 1 == e.depth
  }

  // The queue is a list of links in their order.
  ghost predicate SpotsFit(web: Web, start: Url, calls: seq<Call>, queue: seq<Entry>, spots: seq<Spot>) {
    && |spots| == |queue|
    && (forall x :: 0 <= x < |spots| ==> SpotFits(web, start, calls, queue[x], spots[x]))
    && forall x, y :: 0 <= x < y < |spots| ==> Before(spots[x], spots[y])
  }

  ghost predicate LeftIn(web: Web, start: Url, calls: seq<Call>, bound: nat, spots: seq<Spot>) {
    forall t :: Left(web, start, calls, bound, t) ==> t in spots
  }

  ghost predicate HasSpots(web: Web, start: Url, calls: seq<Call>, queue: seq<Entry>, bound: nat) {
    exists spots :: SpotsFit(web, start, calls, queue, spots) && LeftIn(web, start, calls, bound, spots)
  }

  // Where the entries of a page stand on it.
  function NewSpots(web: Web, start: Url, page: string, links: seq<string>, seen: set<string>, c: nat): seq<Spot> {
    if links == [] then []
    else
      var t := LinkTarget(web, start, page, links[|links| - 1]);
      NewSpots(web, start, page, links[..|links| - 1], seen, c)
      + if t.Some? && t.value !in seen then [Spot(c, |links| - 1)] else []
  }

  // A link of the page to a text that was not seen.
  predicate NewLink(web: Web, start: Url, page: string, links: seq<string>, seen: set<string>, i: nat, m: string) {
    i < |links| && LinkTarget(web, start, page, links[i]) == Some(m) && m !in seen
  }

  lemma {:induction false} NewSpotsFit(web: Web, start: Url, page: string, links: seq<string>, seen: set<string>,
                                       depth: nat, c: nat)
    ensures var spots := NewSpots(web, start, page, links, seen, c);
            var entries := NewEntries(web, start, page, links, seen, depth);
            && |spots| == |entries|
            && (forall x :: 0 <= x < |spots| ==>
                  && spots[x].call == c && entries[x].depth == depth + 1
                  && NewLink(web, start, page, links, seen, spots[x].link, entries[x].raw))
            && (forall x, y :: 0 <= x < y < |spots| ==> spots[x].link < spots[y].link)
            && (forall i, m :: NewLink(web, start, page, links, seen, i, m) ==> Spot(c, i) in spots)
  {
    if links != [] {
      var n := |links| - 1;
      NewSpotsFit(web, start, page, links[..n], seen, depth, c);
      forall i: nat, m | NewLink(web, start, page, links, seen, i, m)
        ensures Spot(c, i) in NewSpots(web, start, page, links, seen, c)
      {
        assert i < n ==> NewLink(web, start, page, links[..n], seen, i, m);
      }
    }
  }

  // The spots of the page that the last call fetched.
  lemma PageSpotsFit(web: Web, start: Url, calls: seq<Call>, c: nat, seen: set<string>, maxDepth: int, added: seq<Entry>)
    returns (spots: seq<Spot>)
    requires |calls| == c + 1 && SeenOk(seen, calls)
    requires Followed(web, start, calls[c].url, seen, calls[c].depth, maxDepth) == Some(added)
    ensures SpotsFit(web, start, calls, added, spots)
    ensures forall x :: 0 <= x < |spots| ==> spots[x].call == c
    ensures forall t :: Left(web, start, calls, Bound(maxDepth), t) && t.call == c ==> t in spots
  {
    var r := Fetch(web, calls[c].url);
    if r.FetchError? || calls[c].depth >= maxDepth {
      spots := [];
    } else {
      spots := NewSpots(web, start, r.url, r.links, seen, c);
      NewSpotsFit(web, start, r.url, r.links, seen, calls[c].depth, c);
      UnseenOnPage(web, start, calls, c, seen, r);
      forall x | 0 <= x < |spots|
        ensures SpotFits(web, start, calls, added[x], spots[x])
      {
        assert NewLink(web, start, r.url, r.links, seen, spots[x].link, added[x].raw);
        assert spots[x] == Spot(c, spots[x].link);
      }
      forall t | Left(web, start, calls, Bound(maxDepth), t) && t.call == c
        ensures t in spots
      {
        assert t == Spot(c, t.link);
        assert NewLink(web, start, r.url, r.links, seen, t.link, Unseen(web, start, calls, t).value);
      }
    }
  }

  lemma UnseenOnPage(web: Web, start: Url, calls: seq<Call>, c: nat, seen: set<string>, r: Response)
    requires |calls| == c + 1 && SeenOk(seen, calls) && r == Fetch(web, calls[c].url) && r.Page?
    ensures forall i, m :: Unseen(web, start, calls, Spot(c, i)) == Some(m) <==> NewLink(web, start, r.url, r.links, seen, i, m)
  {
    forall m
      ensures SeenBy(calls, c, m) <==> m in seen
    {
    }
  }

  // What is left but for the head of the queue, whose text is u.
  ghost predicate LeftBut(web: Web, start: Url, calls: seq<Call>, bound: nat, spots: seq<Spot>, u: string) {
    forall t :: Left(web, start, calls, bound, t) ==> t in spots || TextAt(web, start, calls, t) == Some(u)
  }

  lemma TailFits(web: Web, start: Url, calls: seq<Call>, queue: seq<Entry>, spots: seq<Spot>)
    requires queue != [] && SpotsFit(web, start, calls, queue, spots)
    ensures SpotsFit(web, start, calls, queue[1..], spots[1..])
  {
    forall x | 0 <= x < |spots[1..]|
      ensures SpotFits(web, start, calls, queue[1..][x], spots[1..][x])
    {
      assert SpotFits(web, start, calls, queue[x + 1], spots[x + 1]);
    }
  }

  lemma LeftInTail(web: Web, start: Url, calls: seq<Call>, queue: seq<Entry>, bound: nat, spots: seq<Spot>, u: string)
    requires queue != [] && NormalizesTo(web, queue[0].raw, u)
    requires SpotsFit(web, start, calls, queue, spots) && LeftIn(web, start, calls, bound, spots)
    ensures LeftBut(web, start, calls, bound, spots[1..], u)
  {
    assert SpotFits(web, start, calls, queue[0], spots[0]);
    assert spots == [spots[0]] + spots[1..];
  }

  // The tail of the queue, when the head is dropped and when it is called.
  lemma SpotsAfterDrop(web: Web, start: Url, calls: seq<Call>, queue: seq<Entry>, bound: nat)
    requires queue != [] && HasSpots(web, start, calls, queue, bound)
    requires web.normalize(queue[0].raw).Some? ==> CalledBefore(calls, |calls|, web.normalize(queue[0].raw).value.text)
    ensures HasSpots(web, start, calls, queue[1..], bound)
  {
    var spots :| SpotsFit(web, start, calls, queue, spots) && LeftIn(web, start, calls, bound, spots);
    TailFits(web, start, calls, queue, spots);
    DroppedIsNotLeft(web, start, calls, queue, bound, spots);
  }

  lemma DroppedIsNotLeft(web: Web, start: Url, calls: seq<Call>, queue: seq<Entry>, bound: nat, spots: seq<Spot>)
    requires queue != [] && SpotsFit(web, start, calls, queue, spots) && LeftIn(web, start, calls, bound, spots)
    requires web.normalize(queue[0].raw).Some? ==> CalledBefore(calls, |calls|, web.normalize(queue[0].raw).value.text)
    ensures LeftIn(web, start, calls, bound, spots[1..])
  {
    assert SpotFits(web, start, calls, queue[0], spots[0]);
    assert !Left(web, start, calls, bound, spots[0]);
    assert spots == [spots[0]] + spots[1..];
  }

  lemma SpotsWithoutHead(web: Web, start: Url, calls: seq<Call>, queue: seq<Entry>, bound: nat, u: string)
    returns (spots: seq<Spot>)
    requires queue != [] && NormalizesTo(web, queue[0].raw, u) && Begun(web, start, calls, queue)
    requires calls != [] ==> HasSpots(web, start, calls, queue, bound)
    ensures SpotsFit(web, start, calls, queue[1..], spots) && LeftBut(web, start, calls, bound, spots, u)
  {
    if calls == [] {
      return [];
    }
    var all :| SpotsFit(web, start, calls, queue, all) && LeftIn(web, start, calls, bound, all);
    TailFits(web, start, calls, queue, all);
    LeftInTail(web, start, calls, queue, bound, all, u);
    spots := all[1..];
  }

  lemma StillLeft(web: Web, start: Url, calls: seq<Call>, call: Call, bound: nat, t: Spot)
    requires Left(web, start, calls + [call], bound, t) && t.call < |calls|
    ensures Left(web, start, calls, bound, t) && TextAt(web, start, calls, t) != Some(call.url)
  {
    var calls' := calls + [call];
    SpotsStay(web, start, calls, calls', t);
    var text := TextAt(web, start, calls, t).value;
    assert calls'[|calls|].url == call.url;
    CalledStays(calls, calls', text);
    assert !CalledBefore(calls', |calls|, text);
  }

  // The call of the head joins the tail of the queue with the links of its page.
  lemma SpotsJoin(web: Web, start: Url, calls: seq<Call>, call: Call, rest: seq<Entry>, spots: seq<Spot>,
                  added: seq<Entry>, news: seq<Spot>)
    requires SpotsFit(web, start, calls, rest, spots) && SpotsFit(web, start, calls + [call], added, news)
    requires forall x :: 0 <= x < |news| ==> news[x].call == |calls|
    ensures SpotsFit(web, start, calls + [call], rest + added, spots + news)
  {
    var calls', queue, all := calls + [call], rest + added, spots + news;
    forall x | 0 <= x < |all|
      ensures SpotFits(web, start, calls', queue[x], all[x])
    {
      if x < |spots| {
        assert SpotFits(web, start, calls, rest[x], spots[x]);
        SpotsStay(web, start, calls, calls', spots[x]);
      } else {
        assert SpotFits(web, start, calls', added[x - |spots|], news[x - |spots|]);
      }
    }
    forall x, y | 0 <= x < y < |all|
      ensures Before(all[x], all[y])
    {
      assert x < |spots| ==> SpotFits(web, start, calls, rest[x], spots[x]);
    }
  }

  lemma LeftAfterCall(web: Web, start: Url, calls: seq<Call>, call: Call, bound: nat, spots: seq<Spot>, news: seq<Spot>)
    requires LeftBut(web, start, calls, bound, spots, call.url)
    requires forall t :: Left(web, start, calls + [call], bound, t) && t.call == |calls| ==> t in news
    ensures LeftIn(web, start, calls + [call], bound, spots + news)
  {
    forall t | Left(web, start, calls + [call], bound, t)
      ensures t in spots + news
    {
      if t.call < |calls| {
        StillLeft(web, start, calls, call, bound, t);
      }
    }
  }

  lemma SpotsAfterCall(web: Web, start: Url, calls: seq<Call>, queue: seq<Entry>, seen: set<string>, u: string,
                       maxDepth: int, added: seq<Entry>)
    requires queue != [] && NormalizesTo(web, queue[0].raw, u) && Begun(web, start, calls, queue)
    requires calls != [] ==> HasSpots(web, start, calls, queue, Bound(maxDepth))
    requires SeenOk(seen, calls + [Call(u, queue[0].depth)])
    requires Followed(web, start, u, seen, queue[0].depth, maxDepth) == Some(added)
    ensures HasSpots(web, start, calls + [Call(u, queue[0].depth)], queue[1..] + added, Bound(maxDepth))
  {
    var call := Call(u, queue[0].depth);
    var spots := SpotsWithoutHead(web, start, calls, queue, Bound(maxDepth), u);
    var news := PageSpotsFit(web, start, calls + [call], |calls|, seen, maxDepth, added);
    SpotsJoin(web, start, calls, call, queue[1..], spots, added, news);
    LeftAfterCall(web, start, calls, call, Bound(maxDepth), spots, news);
  }

  // The call of the head takes the least link that is left.
  lemma HeadTakes(web: Web, start: Url, calls: seq<Call>, queue: seq<Entry>, bound: nat, u: string)
    requires calls != [] && queue != [] && NormalizesTo(web, queue[0].raw, u) && queue[0].depth <= bound
    requires HasSpots(web, start, calls, queue, bound)
    requires forall i, j :: 0 <= i < j < |calls| ==> calls[i].depth <= calls[j].depth
    ensures HasTurn(web, start, calls + [Call(u, queue[0].depth)], |calls|)
  {
    var calls' := calls + [Call(u, queue[0].depth)];
    var spots :| SpotsFit(web, start, calls, queue, spots) && LeftIn(web, start, calls, bound, spots);
    var s := spots[0];
    assert SpotFits(web, start, calls, queue[0], s);
    SpotsStay(web, start, calls, calls', s);
    forall t | Before(t, s) && TextAt(web, start, calls', t).Some?
      ensures CalledBefore(calls', |calls|, TextAt(web, start, calls', t).value)
    {
      SpotsStay(web, start, calls, calls', t);
      assert t !in spots;
      CalledStays(calls, calls', TextAt(web, start, calls, t).value);
    }
    assert Takes(web, start, calls', |calls|, s);
  }

  lemma CalledStays(calls: seq<Call>, calls': seq<Call>, text: string)
    requires calls <= calls'
    ensures forall j: nat :: j <= |calls| ==> (CalledBefore(calls', j, text) <==> CalledBefore(calls, j, text))
  {
    forall c | 0 <= c < |calls|
      ensures calls'[c] == calls[c]
    {
    }
  }

  lemma TurnsStay(web: Web, start: Url, calls: seq<Call>, call: Call, j: nat)
    requires j < |calls| && HasTurn(web, start, calls, j)
    ensures HasTurn(web, start, calls + [call], j)
  {
    var calls' := calls + [call];
    var s :| Takes(web, start, calls, j, s);
    SpotsStay(web, start, calls, calls', s);
    forall t | Before(t, s) && TextAt(web, start, calls', t).Some?
      ensures CalledBefore(calls', j, TextAt(web, start, calls', t).value)
    {
      SpotsStay(web, start, calls, calls', t);
      CalledStays(calls, calls', TextAt(web, start, calls, t).value);
    }
    assert Takes(web, start, calls', j, s);
  }

  lemma OrderAfterHead(web: Web, start: Url, calls: seq<Call>, queue: seq<Entry>, bound: nat, u: string)
    requires LinkOrder(web, start, calls) && CallsOk(start, calls, bound)
    requires queue != [] && NormalizesTo(web, queue[0].raw, u) && queue[0].depth <= bound
    requires calls != [] ==> HasSpots(web, start, calls, queue, bound)
    ensures LinkOrder(web, start, calls + [Call(u, queue[0].depth)])
  {
    forall j | 0 < j < |calls + [Call(u, queue[0].depth)]|
      ensures HasTurn(web, start, calls + [Call(u, queue[0].depth)], j)
    {
      if j < |calls| {
        TurnsStay(web, start, calls, Call(u, queue[0].depth), j);
      } else {
        HeadTakes(web, start, calls, queue, bound, u);
      }
    }
  }

  lemma StaysBelowCap(web: Web, calls: seq<Call>, call: Call, pageCap: int)
    requires BelowCap(web, calls, pageCap) && |PagesOf(web, calls)| < pageCap
    ensures BelowCap(web, calls + [call], pageCap)
  {
    forall i | 0 <= i <= |calls|
      ensures (calls + [call])[..i] == calls[..i]
    {
    }
    assert calls[..|calls|] == calls;
  }

  ghost predicate CallsOrdered(web: Web, start: Url, calls: seq<Call>, raised: bool, maxDepth: int, pageCap: int) {
    && LinkOrder(web, start, calls)
    && BelowCap(web, calls, pageCap)
    && NoneBlocked(web, calls, |calls| - 1, maxDepth)
    && (if calls == [] then !raised else Blocked(web, calls[|calls| - 1], maxDepth) <==> raised)
  }

  // What a turn keeps of the order; the queue matters until a link raises.
  ghost predicate Ordered(web: Web, start: Url, st: State, maxDepth: int, pageCap: int) {
    && CallsOrdered(web, start, st.calls, st.raised, maxDepth, pageCap)
    && (st.calls != [] && !st.raised ==> HasSpots(web, start, st.calls, st.queue, Bound(maxDepth)))
  }

  lemma DropTurnOrdered(web: Web, start: Url, st: State, maxDepth: int, pageCap: int)
    requires StateOk(web, start, st, maxDepth, pageCap) && Ordered(web, start, st, maxDepth, pageCap)
    requires !Done(web, st, pageCap)
    requires web.normalize(st.queue[0].raw).Some? ==> web.normalize(st.queue[0].raw).value.text in st.seen
    ensures Ordered(web, start, st.(queue := st.queue[1..]), maxDepth, pageCap)
  {
    if st.calls != [] {
      SpotsAfterDrop(web, start, st.calls, st.queue, Bound(maxDepth));
    }
  }

  lemma BlockedAfterCall(web: Web, start: Url, calls: seq<Call>, call: Call, seen: set<string>, maxDepth: int)
    requires NoneBlocked(web, calls, |calls|, maxDepth)
    ensures NoneBlocked(web, calls + [call], |calls|, maxDepth)
    ensures Blocked(web, call, maxDepth) <==> Followed(web, start, call.url, seen, call.depth, maxDepth).None?
  {
  }

  lemma CallsOrderedAfterCall(web: Web, start: Url, calls: seq<Call>, queue: seq<Entry>, seen: set<string>, u: string,
                              maxDepth: int, pageCap: int)
    requires CallsOrdered(web, start, calls, false, maxDepth, pageCap) && |PagesOf(web, calls)| < pageCap
    requires CallsOk(start, calls, Bound(maxDepth))
    requires queue != [] && NormalizesTo(web, queue[0].raw, u) && queue[0].depth <= Bound(maxDepth)
    requires calls != [] ==> HasSpots(web, start, calls, queue, Bound(maxDepth))
    ensures CallsOrdered(web, start, calls + [Call(u, queue[0].depth)],
                         Followed(web, start, u, seen, queue[0].depth, maxDepth).None?, maxDepth, pageCap)
  {
    var call := Call(u, queue[0].depth);
    OrderAfterHead(web, start, calls, queue, Bound(maxDepth), u);
    StaysBelowCap(web, calls, call, pageCap);
    BlockedAfterCall(web, start, calls, call, seen, maxDepth);
  }

  lemma SpotsAfterTurn(web: Web, start: Url, calls: seq<Call>, queue: seq<Entry>, seen: set<string>, u: string,
                       maxDepth: int, added: Option<seq<Entry>>)
    requires queue != [] && NormalizesTo(web, queue[0].raw, u) && Begun(web, start, calls, queue)
    requires calls != [] ==> HasSpots(web, start, calls, queue, Bound(maxDepth))
    requires SeenOk(seen, calls) && added == Followed(web, start, u, seen + {u}, queue[0].depth, maxDepth)
    ensures added.Some? ==>
              HasSpots(web, start, calls + [Call(u, queue[0].depth)], queue[1..] + added.value, Bound(maxDepth))
  {
    SeenAfterCall(seen, calls, u, queue[0].depth);
    if added.Some? {
      SpotsAfterCall(web, start, calls, queue, seen + {u}, u, maxDepth, added.value);
    }
  }

  lemma CallTurnOrdered(web: Web, start: Url, st: State, maxDepth: int, pageCap: int, u: string)
    requires Ordered(web, start, st, maxDepth, pageCap) && !Done(web, st, pageCap)
    requires NormalizesTo(web, st.queue[0].raw, u) && u !in st.seen
    requires CallsOk(start, st.calls, Bound(maxDepth)) && st.queue[0].depth <= Bound(maxDepth)
    requires Begun(web, start, st.calls, st.queue) && SeenOk(st.seen, st.calls)
    ensures Ordered(web, start, Turn(web, start, st, maxDepth), maxDepth, pageCap)
  {
    var added := Followed(web, start, u, st.seen + {u}, st.queue[0].depth, maxDepth);
    CallsOrderedAfterCall(web, start, st.calls, st.queue, st.seen + {u}, u, maxDepth, pageCap);
    SpotsAfterTurn(web, start, st.calls, st.queue, st.seen, u, maxDepth, added);
  }

  lemma TurnOrdered(web: Web, start: Url, st: State, maxDepth: int, pageCap: int)
    requires StateOk(web, start, st, maxDepth, pageCap) && Ordered(web, start, st, maxDepth, pageCap)
    requires !Done(web, st, pageCap)
    ensures Ordered(web, start, Turn(web, start, st, maxDepth), maxDepth, pageCap)
  {
    var url := web.normalize(st.queue[0].raw);
    if url.None? || url.value.text in st.seen {
      DropTurnOrdered(web, start, st, maxDepth, pageCap);
    } else {
      CallTurnOrdered(web, start, st, maxDepth, pageCap, url.value.text);
    }
  }

  lemma EndIsOrderly(web: Web, start: Url, end: State, maxDepth: int, pageCap: int)
    requires StateOk(web, start, end, maxDepth, pageCap) && Ordered(web, start, end, maxDepth, pageCap)
    requires Done(web, end, pageCap)
    ensures Orderly(web, start, end.calls, maxDepth, pageCap) && Ended(web, start, end.calls, maxDepth, pageCap)
  {
    if !end.raised && |PagesOf(web, end.calls)| < pageCap {
      var spots :| SpotsFit(web, start, end.calls, [], spots) && LeftIn(web, start, end.calls, Bound(maxDepth), spots);
    }
  }

  // Whatever lies within the depth bound was requested, no later than at its distance.
  ghost predicate Complete(web: Web, start: Url, calls: seq<Call>, maxDepth: int) {
    forall v, k :: 0 <= k <= Bound(maxDepth) && Hops(web, start, k, v) ==> Requested(web, calls, v, k)
  }

  // What every request of a crawl satisfies: it lies as many hops away as its call is deep.
  ghost predicate Reachable(web: Web, start: Url, calls: seq<Call>) {
    forall i :: 0 <= i < |calls| && web.request(calls[i].url).Some? ==>
      Hops(web, start, calls[i].depth, web.request(calls[i].url).value)
  }

  // Neither the cap nor a link has ended the crawl.
  predicate Finished(web: Web, end: State, pageCap: int) {
    !end.raised && |PagesOf(web, end.calls)| < pageCap
  }

  // What a crawl satisfies at its end.
  ghost predicate CrawlOk(web: Web, start: Url, end: State, maxDepth: int, pageCap: int) {
    && |PagesOf(web, end.calls)| <= Bound(pageCap)
    && CallsOk(start, end.calls, Bound(maxDepth))
    && Reasons(web, start, end.calls) && Reachable(web, start, end.calls)
    && (Finished(web, end, pageCap) ==> Expanded(web, start, end.calls, [], Bound(maxDepth)))
    && (Settled(web, end.calls) ==> NearestFirst(web, start, end.calls))
    && (Settled(web, end.calls) && Finished(web, end, pageCap) ==> Complete(web, start, end.calls, maxDepth))
    && (end.raised <==> end.calls != [] && Blocked(web, end.calls[|end.calls| - 1], maxDepth))
    && Orderly(web, start, end.calls, maxDepth, pageCap) && Ended(web, start, end.calls, maxDepth, pageCap)
  }

  // What every turn of the loop keeps.
  ghost predicate Searching(web: Web, start: Url, st: State, maxDepth: int, pageCap: int) {
    StateOk(web, start, st, maxDepth, pageCap) && Ordered(web, start, st, maxDepth, pageCap)
  }

  lemma OpeningSearches(web: Web, startUrl: string, maxDepth: int, pageCap: int)
    requires web.normalize(startUrl).Some?
    ensures Searching(web, web.normalize(startUrl).value, Opening(startUrl), maxDepth, pageCap)
  {
    StartInv(web, startUrl, Bound(maxDepth));
  }

  lemma TurnSearches(web: Web, start: Url, st: State, maxDepth: int, pageCap: int)
    requires Searching(web, start, st, maxDepth, pageCap) && !Done(web, st, pageCap)
    ensures Searching(web, start, Turn(web, start, st, maxDepth), maxDepth, pageCap)
  {
    TurnOk(web, start, st, maxDepth, pageCap);
    TurnOrdered(web, start, st, maxDepth, pageCap);
  }

  // Every text is called once, in order of depth and within the bound, and what is
  // requested lies at that distance. When the called texts settle, nearer URLs are always
  // requested first, and a finished crawl misses nothing within the bound.
  lemma CrawlIsSearch(web: Web, startUrl: string, maxDepth: int, pageCap: int)
    requires web.normalize(startUrl).Some?
    ensures CrawlOk(web, web.normalize(startUrl).value, Crawl(web, startUrl, maxDepth, pageCap), maxDepth, pageCap)
  {
    var start := web.normalize(startUrl).value;
    var inv := (s: State) => Searching(web, start, s, maxDepth, pageCap);
    OpeningSearches(web, startUrl, maxDepth, pageCap);
    forall s: State | inv(s) && !Done(web, s, pageCap)
      ensures inv(Turn(web, start, s, maxDepth))
    {
      TurnSearches(web, start, s, maxDepth, pageCap);
    }
    CrawlKeeps(web, start, Opening(startUrl), maxDepth, pageCap, inv);
    EndIsOk(web, start, Crawl(web, startUrl, maxDepth, pageCap), maxDepth, pageCap);
  }

  lemma AllReachable(web: Web, start: Url, calls: seq<Call>, bound: nat)
    requires CallsOk(start, calls, bound) && Reasons(web, start, calls)
    ensures Reachable(web, start, calls)
  {
    forall i | 0 <= i < |calls| && web.request(calls[i].url).Some?
      ensures Hops(web, start, calls[i].depth, web.request(calls[i].url).value)
    {
      CallIsHops(web, start, calls, i, web.request(calls[i].url).value);
    }
  }

  lemma EndIsOk(web: Web, start: Url, end: State, maxDepth: int, pageCap: int)
    requires StateOk(web, start, end, maxDepth, pageCap) && Ordered(web, start, end, maxDepth, pageCap)
    requires Done(web, end, pageCap)
    ensures CrawlOk(web, start, end, maxDepth, pageCap)
  {
    EndIsOrderly(web, start, end, maxDepth, pageCap);
    AllReachable(web, start, end.calls, Bound(maxDepth));
    if Settled(web, end.calls) && Finished(web, end, pageCap) {
      Exhausted(web, start, end.calls, Bound(maxDepth));
    }
  }

  lemma Exhausted(web: Web, start: Url, calls: seq<Call>, bound: nat)
    requires Settled(web, calls) && CallsOk(start, calls, bound)
    requires Begun(web, start, calls, []) && Expanded(web, start, calls, [], bound)
    ensures forall v, k :: 0 <= k <= bound && Hops(web, start, k, v) ==> Requested(web, calls, v, k)
  {
    forall v, k | 0 <= k <= bound && Hops(web, start, k, v) ensures Requested(web, calls, v, k) {
      Frontier(web, start, calls, [], bound, k, v);
    }
  }

  // The crawl is the one list of calls that follows the order of the links to the end.
  lemma CrawlIsDetermined(web: Web, startUrl: string, maxDepth: int, pageCap: int, calls: seq<Call>)
    requires web.normalize(startUrl).Some?
    ensures var start := web.normalize(startUrl).value;
            calls == Crawl(web, startUrl, maxDepth, pageCap).calls
            <==> Orderly(web, start, calls, maxDepth, pageCap) && Ended(web, start, calls, maxDepth, pageCap)
  {
    var start, end := web.normalize(startUrl).value, Crawl(web, startUrl, maxDepth, pageCap);
    CrawlIsSearch(web, startUrl, maxDepth, pageCap);
    if Orderly(web, start, calls, maxDepth, pageCap) && Ended(web, start, calls, maxDepth, pageCap) {
      OrderlyCallsAreUnique(web, start, calls, end.calls, maxDepth, pageCap);
    }
  }

  datatype CrawlResult = BadStart | Raised | Crawled(pages: seq<Response>, errors: seq<string>)

  lemma CrawlUnrolls(web: Web, start: Url, st: State, maxDepth: int, pageCap: int)
    ensures CrawlFrom(web, start, st, maxDepth, pageCap) ==
            if Done(web, st, pageCap) then st
            else CrawlFrom(web, start, Turn(web, start, st, maxDepth), maxDepth, pageCap)
  {
  }

  // What the loop has gathered of the calls.
  ghost predicate Logged(web: Web, calls: seq<Call>, pages: seq<Response>, errors: seq<string>) {
    pages == PagesOf(web, calls) && Interleaved(errors, Messages(web, calls))
  }

  lemma LoggedInvalid(web: Web, calls: seq<Call>, pages: seq<Response>, errors: seq<string>)
    requires Logged(web, calls, pages, errors)
    ensures Logged(web, calls, pages, errors + [INVALID_URL])
  {
    InterleavedMore(errors, Messages(web, calls), INVALID_URL);
  }

  lemma LoggedCall(web: Web, calls: seq<Call>, c: Call, pages: seq<Response>, errors: seq<string>)
    requires Logged(web, calls, pages, errors)
    ensures var r := Fetch(web, c.url);
            if r.FetchError? then Logged(web, calls + [c], pages, errors + [r.message])
            else Logged(web, calls + [c], pages + [r], errors)
  {
    PagesGrow(web, calls, c);
    MessagesGrow(web, calls, c);
    var r := Fetch(web, c.url);
    if r.FetchError? {
      assert PagesOf(web, calls) + [] == PagesOf(web, calls);
      InterleavedMore(errors, Messages(web, calls), r.message);
    } else {
      assert Messages(web, calls) + [] == Messages(web, calls);
    }
  }

  // The loop of the crawl.
  method CrawlQueue(web: Web, start: Url, startUrl: string, maxDepth: int, pageCap: int)
    returns (result: CrawlResult, ghost end: State)
    ensures end == CrawlFrom(web, start, Opening(startUrl), maxDepth, pageCap)
    ensures if end.raised then result.Raised? else
              && result.Crawled?
              && Logged(web, end.calls, result.pages, result.errors)
  {
    var queue := [Entry(startUrl, 0)];
    var seen: set<string> := {};
    var pages: seq<Response> := [];
    var errors: seq<string> := [];
    ghost var calls: seq<Call> := [];
    end := CrawlFrom(web, start, Opening(startUrl), maxDepth, pageCap);
    while queue != [] && |pages| < pageCap
      invariant Logged(web, calls, pages, errors)
      invariant end == CrawlFrom(web, start, State(queue, seen, calls, false), maxDepth, pageCap)
      decreases pageCap - |pages|, |queue|
    {
      ghost var st := State(queue, seen, calls, false);
      ghost var next := Turn(web, start, st, maxDepth);
      CrawlUnrolls(web, start, st, maxDepth, pageCap);
      TurnProgress(web, start, st, maxDepth);
      var head := queue[0];
      var url := web.normalize(head.raw);
      queue := queue[1..];
      if url.None? {
        LoggedInvalid(web, calls, pages, errors);
        errors := errors + [INVALID_URL];
        assert next == State(queue, seen, calls, false);
        continue;
      }
      if url.value.text in seen {
        assert next == State(queue, seen, calls, false);
        continue;
      }
      var u := url.value.text;
      seen := seen + {u};
      LoggedCall(web, calls, Call(u, head.depth), pages, errors);
      calls := calls + [Call(u, head.depth)];
      var response := Fetch(web, u);
      var added := LinkEntries(web, start, u, seen, head.depth, maxDepth);
      if added.None? {
        CrawlUnrolls(web, start, next, maxDepth, pageCap);
        return Raised, end;
      }
      queue := queue + added.value;
      assert next == State(queue, seen, calls, false);
      if response.FetchError? {
        errors := errors + [response.message];
      } else {
        pages := pages + [response];
      }
    }
    result := Crawled(pages, errors);
  }

  method CrawlSite(web: Web, startUrl: string, maxDepth: int, pageCap: int)
    returns (result: CrawlResult, ghost calls: seq<Call>)
    ensures result.BadStart? <==> web.normalize(startUrl).None?
    ensures !result.BadStart? ==>
              var end := Crawl(web, startUrl, maxDepth, pageCap);
              && calls == end.calls && (result.Raised? <==> end.raised)
              && CrawlOk(web, web.normalize(startUrl).value, end, maxDepth, pageCap)
    ensures result.Crawled? ==>
              && result.pages == PagesOf(web, calls) && PagesInOrder(web, calls, result.pages)
              && Interleaved(result.errors, Messages(web, calls))
  {
    var start := web.normalize(startUrl);
    if start.None? {
      return BadStart, [];
    }
    ghost var end;
    result, end := CrawlQueue(web, start.value, startUrl, maxDepth, pageCap);
    CrawlIsSearch(web, startUrl, maxDepth, pageCap);
    calls := end.calls;
    PagesAreInOrder(web, calls);
  }

  // ------------------------------------------------------------ what a caller can see

  // Every link of every page is taken up under a text that settles.
  ghost predicate LinksSettle(web: Web, start: Url) {
    forall u, m :: Offers(web, start, web.site(u), m) && web.normalize(m).Some? ==> Settles(web, web.normalize(m).value.text)
  }

  ghost predicate Searches(web: Web, startUrl: string, maxDepth: int, pageCap: int)
    requires web.normalize(startUrl).Some?
  {
    var start, end := web.normalize(startUrl).value, Crawl(web, startUrl, maxDepth, pageCap);
    && NearestFirst(web, start, end.calls)
    && (Finished(web, end, pageCap) ==> Complete(web, start, end.calls, maxDepth))
  }

  lemma SettlingLinksAreSearched(web: Web, startUrl: string, maxDepth: int, pageCap: int)
    requires web.normalize(startUrl).Some? && LinksSettle(web, web.normalize(startUrl).value)
    requires Settles(web, web.normalize(startUrl).value.text)
    ensures Searches(web, startUrl, maxDepth, pageCap)
  {
    var start, end := web.normalize(startUrl).value, Crawl(web, startUrl, maxDepth, pageCap);
    CrawlIsSearch(web, startUrl, maxDepth, pageCap);
    forall i | 0 <= i < |end.calls|
      ensures Settles(web, end.calls[i].url)
    {
      if i > 0 {
        var j, m := CallHasOffer(web, start, end.calls, i);
      }
    }
  }

  // Without a request for the start there is nothing to search.
  lemma RefusedStartIsSearched(web: Web, startUrl: string, maxDepth: int, pageCap: int)
    requires web.normalize(startUrl).Some? && web.request(web.normalize(startUrl).value.text).None?
    ensures Searches(web, startUrl, maxDepth, pageCap)
  {
    var start := web.normalize(startUrl).value;
    forall k: nat, v
      ensures !Hops(web, start, k, v)
    {
      NoHops(web, start, k, v);
    }
  }

  lemma {:induction false} NoHops(web: Web, start: Url, k: nat, v: string)
    requires web.request(start.text).None?
    ensures !Hops(web, start, k, v)
  {
    if k > 0 && Hops(web, start, k, v) {
      var u :| Hops(web, start, k - 1, u) && Hop(web, start, u, v);
      NoHops(web, start, k - 1, u);
    }
  }

  // ------------------------------------------------------------ a start that does not settle

  // Another link of the start page that leads to v.
  ghost predicate OtherLink(web: Web, start: Url, v: string) {
    && web.request(start.text).Some?
    && exists m :: m != start.text && Offers(web, start, web.site(web.request(start.text).value), m)
                   && TakenUp(web, m) == Some(v)
  }

  lemma EarlyRequest(web: Web, start: Url, calls: seq<Call>, bound: nat, v: string)
    requires CallsOk(start, calls, bound) && Reasons(web, start, calls)
    requires Requested(web, calls, v, 1) && web.request(start.text) != Some(v)
    ensures OtherLink(web, start, v)
  {
    var i :| 0 <= i < |calls| && calls[i].depth <= 1 && web.request(calls[i].url) == Some(v);
    var j, m := CallHasOffer(web, start, calls, i);
    if j > 0 {
      var j', m' := CallHasOffer(web, start, calls, j);
    }
    assert calls[0].url == start.text && (m == start.text ==> SeenBy(calls, j, m));
  }

  // An offer that no earlier call has the text of is taken up by a finished crawl.
  lemma OfferIsTakenUp(web: Web, startUrl: string, maxDepth: int, pageCap: int, i: nat, m: string)
    requires web.normalize(startUrl).Some? && web.normalize(m).Some?
    requires var end := Crawl(web, startUrl, maxDepth, pageCap);
             && Finished(web, end, pageCap) && i < |end.calls| && end.calls[i].depth < maxDepth
             && Offers(web, web.normalize(startUrl).value, Fetch(web, end.calls[i].url), m)
             && !SeenBy(end.calls, i, m)
    ensures var end := Crawl(web, startUrl, maxDepth, pageCap);
            Called(end.calls, web.normalize(m).value.text, end.calls[i].depth + 1)
  {
    var end := Crawl(web, startUrl, maxDepth, pageCap);
    CrawlIsSearch(web, startUrl, maxDepth, pageCap);
    assert Handled(web, end.calls, [], i, m);
  }

  lemma StartIsCalled(web: Web, startUrl: string, maxDepth: int, pageCap: int)
    requires web.normalize(startUrl).Some? && pageCap >= 1
    ensures var end := Crawl(web, startUrl, maxDepth, pageCap);
            end.calls != [] && end.calls[0] == Call(web.normalize(startUrl).value.text, 0)
  {
    var start := web.normalize(startUrl).value;
    CrawlIsSearch(web, startUrl, maxDepth, pageCap);
    CrawlUnrolls(web, start, Opening(startUrl), maxDepth, pageCap);
    CallsOnlyGrow(web, start, Turn(web, start, Opening(startUrl), maxDepth), maxDepth, pageCap);
  }

  lemma {:induction false} CallsOnlyGrow(web: Web, start: Url, st: State, maxDepth: int, pageCap: int)
    ensures |st.calls| <= |CrawlFrom(web, start, st, maxDepth, pageCap).calls|
    decreases pageCap - |PagesOf(web, st.calls)|, |st.queue|
  {
    if !Done(web, st, pageCap) {
      TurnProgress(web, start, st, maxDepth);
      CallsOnlyGrow(web, start, Turn(web, start, st, maxDepth), maxDepth, pageCap);
    }
  }

  lemma OtherLinkIsTakenUp(web: Web, startUrl: string, v: string, maxDepth: int, pageCap: int)
    requires web.normalize(startUrl).Some? && maxDepth >= 1 && OtherLink(web, web.normalize(startUrl).value, v)
    requires Finished(web, Crawl(web, startUrl, maxDepth, pageCap), pageCap)
    ensures Requested(web, Crawl(web, startUrl, maxDepth, pageCap).calls, v, 1)
  {
    var start, end := web.normalize(startUrl).value, Crawl(web, startUrl, maxDepth, pageCap);
    StartIsCalled(web, startUrl, maxDepth, pageCap);
    var m :| m != start.text && Offers(web, start, Fetch(web, start.text), m) && TakenUp(web, m) == Some(v);
    OfferIsTakenUp(web, startUrl, maxDepth, pageCap, 0, m);
    var c :| 0 <= c < |end.calls| && end.calls[c].depth <= 1 && end.calls[c].url == web.normalize(m).value.text;
    assert web.request(end.calls[c].url) == Some(v);
  }

  // When the start does not settle, a link of the start page to the start's own text is
  // dropped as seen. What it leads to is one hop away, and is requested in time exactly
  // when another link of that page leads there too.
  lemma UnsettledStartMissesALink(web: Web, startUrl: string, v: string, maxDepth: int, pageCap: int)
    requires web.normalize(startUrl).Some? && maxDepth >= 1
    requires var start := web.normalize(startUrl).value;
             && web.request(start.text).Some? && web.request(start.text) != Some(v)
             && TakenUp(web, start.text) == Some(v)
             && Offers(web, start, web.site(web.request(start.text).value), start.text)
    requires Finished(web, Crawl(web, startUrl, maxDepth, pageCap), pageCap)
    ensures var start, end := web.normalize(startUrl).value, Crawl(web, startUrl, maxDepth, pageCap);
            && Hops(web, start, 1, v)
            && (Requested(web, end.calls, v, 1) <==> OtherLink(web, start, v))
  {
    var start, end := web.normalize(startUrl).value, Crawl(web, startUrl, maxDepth, pageCap);
    var u := web.request(start.text).value;
    CrawlIsSearch(web, startUrl, maxDepth, pageCap);
    assert Hops(web, start, 0, u) && Hop(web, start, u, v);
    if Requested(web, end.calls, v, 1) {
      EarlyRequest(web, start, end.calls, Bound(maxDepth), v);
    }
    if OtherLink(web, start, v) {
      OtherLinkIsTakenUp(web, startUrl, v, maxDepth, pageCap);
    }
  }

  // A start page whose one link leads to the start's own text: the crawl ends there.
  ghost predicate LoneLink(web: Web, startUrl: string, page: string, link: string)
    requires web.normalize(startUrl).Some?
  {
    var start := web.normalize(startUrl).value;
    && web.request(start.text).Some? && web.site(web.request(start.text).value) == Page(page, [link])
    && LinkTarget(web, start, page, link) == Some(start.text)
  }

  lemma LoneTurn(web: Web, startUrl: string, page: string, link: string, maxDepth: int)
    requires web.normalize(startUrl).Some? && LoneLink(web, startUrl, page, link)
    ensures var start := web.normalize(startUrl).value;
            Turn(web, start, Opening(startUrl), maxDepth) == State([], {start.text}, [Call(start.text, 0)], false)
  {
    var start := web.normalize(startUrl).value;
    var st := Opening(startUrl);
    assert [link][..0] == [];
    assert NewEntries(web, start, page, [link], {start.text}, 0) == [];
    assert st.seen + {start.text} == {start.text} && st.calls + [Call(start.text, 0)] == [Call(start.text, 0)];
    assert st.queue[1..] + [] == [];
  }

  lemma LoneLinkEndsTheCrawl(web: Web, startUrl: string, page: string, link: string, v: string, maxDepth: int, pageCap: int)
    requires web.normalize(startUrl).Some? && LoneLink(web, startUrl, page, link) && pageCap >= 2
    ensures Finished(web, Crawl(web, startUrl, maxDepth, pageCap), pageCap)
    ensures !OtherLink(web, web.normalize(startUrl).value, v)
  {
    var start := web.normalize(startUrl).value;
    var st := State([], {start.text}, [Call(start.text, 0)], false);
    LoneTurn(web, startUrl, page, link, maxDepth);
    CrawlUnrolls(web, start, Opening(startUrl), maxDepth, pageCap);
    CrawlUnrolls(web, start, st, maxDepth, pageCap);
    PagesAreFew(web, st.calls);
  }

  lemma PagesAreFew(web: Web, calls: seq<Call>)
    ensures |PagesOf(web, calls)| <= |calls|
  {
  }

  // ------------------------------------------------------------ how often a URL is requested

  ghost predicate RequestedOnce(web: Web, calls: seq<Call>) {
    forall i, j :: 0 <= i < j < |calls| && web.request(calls[i].url).Some? ==>
      web.request(calls[i].url) != web.request(calls[j].url)
  }

  // A text under which itself is requested, or nothing.
  predicate Stands(web: Web, text: string) {
    web.request(text).Some? ==> web.request(text) == Some(text)
  }

  ghost predicate LinksStand(web: Web, start: Url) {
    forall u, m :: Offers(web, start, web.site(u), m) && web.normalize(m).Some? ==> Stands(web, web.normalize(m).value.text)
  }

  lemma StandingLinksAreRequestedOnce(web: Web, startUrl: string, maxDepth: int, pageCap: int)
    requires web.normalize(startUrl).Some? && LinksStand(web, web.normalize(startUrl).value)
    requires Stands(web, web.normalize(startUrl).value.text)
    ensures RequestedOnce(web, Crawl(web, startUrl, maxDepth, pageCap).calls)
  {
    var start, end := web.normalize(startUrl).value, Crawl(web, startUrl, maxDepth, pageCap);
    CrawlIsSearch(web, startUrl, maxDepth, pageCap);
    forall i | 0 <= i < |end.calls|
      ensures Stands(web, end.calls[i].url)
    {
      if i > 0 {
        var j, m := CallHasOffer(web, start, end.calls, i);
      }
    }
  }

  // The page of the i-th call offers a text that is new then, and is taken up as another.
  ghost predicate TakesUp(web: Web, start: Url, calls: seq<Call>, maxDepth: int, i: nat, m: string, text: string) {
    && i < |calls| && calls[i].depth < maxDepth && Offers(web, start, Fetch(web, calls[i].url), m)
    && !SeenBy(calls, i, m) && NormalizesTo(web, m, text)
  }

  // Two offers that are taken up as different texts but for the same URL: a finished
  // crawl requests it twice.
  lemma TwoFormsAreRequestedTwice(web: Web, startUrl: string, i: nat, m: string, text: string, j: nat, n: string,
                                  other: string, maxDepth: int, pageCap: int)
    requires web.normalize(startUrl).Some? && Finished(web, Crawl(web, startUrl, maxDepth, pageCap), pageCap)
    requires var start, calls := web.normalize(startUrl).value, Crawl(web, startUrl, maxDepth, pageCap).calls;
             TakesUp(web, start, calls, maxDepth, i, m, text) && TakesUp(web, start, calls, maxDepth, j, n, other)
    requires text != other && web.request(text).Some? && web.request(text) == web.request(other)
    ensures !RequestedOnce(web, Crawl(web, startUrl, maxDepth, pageCap).calls)
  {
    var calls := Crawl(web, startUrl, maxDepth, pageCap).calls;
    OfferIsTakenUp(web, startUrl, maxDepth, pageCap, i, m);
    OfferIsTakenUp(web, startUrl, maxDepth, pageCap, j, n);
    var c :| 0 <= c < |calls| && calls[c].depth <= calls[i].depth + 1 && calls[c].url == text;
    var d :| 0 <= d < |calls| && calls[d].depth <= calls[j].depth + 1 && calls[d].url == other;
    assert web.request(calls[c].url) == web.request(calls[d].url) && c != d;
  }

  // A link of the start page leads to a text that is new, and is taken up as another.
  predicate StartLink(web: Web, start: Url, m: string, text: string) {
    m != start.text && Offers(web, start, Fetch(web, start.text), m) && NormalizesTo(web, m, text)
  }

  lemma TwoStartLinksAreRequestedTwice(web: Web, startUrl: string, m: string, text: string, n: string, other: string,
                                       maxDepth: int, pageCap: int)
    requires web.normalize(startUrl).Some? && Finished(web, Crawl(web, startUrl, maxDepth, pageCap), pageCap)
    requires maxDepth >= 1 && pageCap >= 1
    requires var start := web.normalize(startUrl).value;
             StartLink(web, start, m, text) && StartLink(web, start, n, other)
    requires text != other && web.request(text).Some? && web.request(text) == web.request(other)
    ensures !RequestedOnce(web, Crawl(web, startUrl, maxDepth, pageCap).calls)
  {
    StartIsCalled(web, startUrl, maxDepth, pageCap);
    TwoFormsAreRequestedTwice(web, startUrl, 0, m, text, 0, n, other, maxDepth, pageCap);
  }
}
